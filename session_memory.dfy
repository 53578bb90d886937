/** Conversation memory for follow-up questions (back/session_memory.py): the
    last few exchanges of each session, forgotten after a period of inactivity.
    The clock is a parameter `now`, in seconds. */
module SessionMemoryModel {
  import opened Text

  /** One stored exchange: the question and the answer summary, both truncated. */
  datatype Exchange = Exchange(q: string, a: string)

  /** What the store keeps per session id. */
  datatype Entry = Entry(messages: seq<Exchange>, lastActive: int)

  const QuestionPrefix: string := "سوال قبلی: "
  const AnswerPrefix: string := "پاسخ قبلی: "

  /** The messages a session had before an exchange: none for a new session. */
  function Prior(store: map<string, Entry>, sid: string): seq<Exchange>
  {
    if sid in store then store[sid].messages else []
  }

  /** The entry after one exchange is appended to `prior`: the message list
      keeps its last `maxTurns` items (Python `messages[-max_turns:]`) and
      `last_active` becomes `now`. */
  function Appended(prior: seq<Exchange>, maxTurns: int, question: string, answer: string, now: int): Entry
  {
    Entry(Last(prior + [Exchange(Take(question, 200), Take(answer, 300))], maxTurns), now)
  }

  /** `add_exchange` keeps at most `maxTurns` messages, the new one last and
      truncated to 200 / 300 characters, the older ones the most recent of
      those before and in their order, and stamps the session with `now`. */
  lemma AppendedCorrect(prior: seq<Exchange>, maxTurns: int, question: string, answer: string, now: int)
    requires maxTurns > 0
    ensures var ms := Appended(prior, maxTurns, question, answer, now).messages;
      && Appended(prior, maxTurns, question, answer, now).lastActive == now
      && 1 <= |ms| <= maxTurns
      && ms[|ms| - 1] == Exchange(Take(question, 200), Take(answer, 300))
      && |ms[|ms| - 1].q| <= 200 && |ms[|ms| - 1].a| <= 300
      && ms[..|ms| - 1] == prior[|prior| - (|ms| - 1)..]
      && (|prior| < maxTurns ==> |ms| == |prior| + 1)
  {
    LastAppend(prior, Exchange(Take(question, 200), Take(answer, 300)), maxTurns);
  }

  /** An exchange truncated as `add_exchange` truncates it. */
  predicate Truncated(ex: Exchange)
  {
    |ex.q| <= 200 && |ex.a| <= 300
  }

  /** A session entry with at most `maxTurns` truncated exchanges. */
  predicate EntryValid(e: Entry, maxTurns: int)
  {
    |e.messages| <= maxTurns && forall k :: 0 <= k < |e.messages| ==> Truncated(e.messages[k])
  }

  /** Appending to a valid session, or to a new one, gives a valid entry. */
  lemma AppendedValid(prior: seq<Exchange>, maxTurns: int, question: string, answer: string, now: int)
    requires maxTurns > 0
    requires forall k :: 0 <= k < |prior| ==> Truncated(prior[k])
    ensures EntryValid(Appended(prior, maxTurns, question, answer, now), maxTurns)
  {
    var all := prior + [Exchange(Take(question, 200), Take(answer, 300))];
    var ms := Last(all, maxTurns);
    forall k | 0 <= k < |ms|
      ensures Truncated(ms[k])
    {
      assert ms[k] == all[|all| - |ms| + k];
    }
  }

  /** Python `(s + [x])[-n:]` for `n > 0`: ends with `x`, preceded by the end of `s`. */
  lemma LastAppend<T>(s: seq<T>, x: T, n: int)
    requires n > 0
    ensures var r := Last(s + [x], n);
      && 1 <= |r| <= n
      && r[|r| - 1] == x
      && r[..|r| - 1] == s[|s| - (|r| - 1)..]
      && (|s| < n ==> |r| == |s| + 1)
  {
    var all := s + [x];
    var r := Last(all, n);
    assert r == all[|all| - |r|..];
    assert r[..|r| - 1] == all[|all| - |r|..|all| - 1];
    assert all[..|all| - 1] == s;
  }

  /** The session has been idle for more than `ttl_minutes * 60` seconds. */
  predicate Expired(e: Entry, ttlMinutes: int, now: int)
  {
    now - e.lastActive > ttlMinutes * 60
  }

  /** The two context lines one exchange contributes. */
  function ExchangeLines(ex: Exchange): seq<string>
  {
    [QuestionPrefix + ex.q, AnswerPrefix + ex.a]
  }

  /** All context lines, exchange by exchange. */
  function Lines(ms: seq<Exchange>): (r: seq<string>)
    ensures |r| == 2 * |ms|
  {
    if ms == [] then [] else Lines(ms[..|ms| - 1]) + ExchangeLines(ms[|ms| - 1])
  }

  /** Line `2i` is the `i`-th question and line `2i + 1` its answer, in
      insertion order. */
  lemma {:induction false} LinesOrder(ms: seq<Exchange>)
    ensures forall i :: 0 <= i < |ms| ==>
      Lines(ms)[2 * i] == QuestionPrefix + ms[i].q && Lines(ms)[2 * i + 1] == AnswerPrefix + ms[i].a
    decreases |ms|
  {
    if ms != [] {
      var init := ms[..|ms| - 1];
      LinesOrder(init);
      forall i | 0 <= i < |ms|
        ensures Lines(ms)[2 * i] == QuestionPrefix + ms[i].q && Lines(ms)[2 * i + 1] == AnswerPrefix + ms[i].a
      {
        if i < |ms| - 1 {
          assert ms[i] == init[i];
        }
      }
    }
  }

  /** The sessions that survive `cleanup`. */
  function Live(store: map<string, Entry>, ttlMinutes: int, now: int): map<string, Entry>
  {
    map sid | sid in store && !Expired(store[sid], ttlMinutes, now) :: store[sid]
  }

  function ExpiredIds(store: map<string, Entry>, ttlMinutes: int, now: int): set<string>
  {
    set sid | sid in store && Expired(store[sid], ttlMinutes, now)
  }

  /** `cleanup` partitions the store: the ids it removes and the ids it keeps
      are disjoint and together are all of the ids, every kept session is
      unchanged and unexpired. */
  lemma LivePartition(store: map<string, Entry>, ttlMinutes: int, now: int)
    ensures var live := Live(store, ttlMinutes, now);
      var gone := ExpiredIds(store, ttlMinutes, now);
      && live.Keys !! gone
      && live.Keys + gone == store.Keys
      && |live.Keys| + |gone| == |store.Keys|
      && (forall sid :: sid in live ==> live[sid] == store[sid] && !Expired(live[sid], ttlMinutes, now))
  {
    var live := Live(store, ttlMinutes, now);
    var gone := ExpiredIds(store, ttlMinutes, now);
    assert live.Keys + gone == store.Keys;
    assert |live.Keys + gone| == |live.Keys| + |gone|;
  }

  class SessionMemory {
    const maxTurns: int
    const ttlMinutes: int
    /** `_store`: session id -> its messages and last activity. */
    var store: map<string, Entry>

    /** Every session holds at most `maxTurns` exchanges, each truncated. */
    ghost predicate Valid()
      reads this
    {
      maxTurns > 0 && forall sid :: sid in store ==> EntryValid(store[sid], maxTurns)
    }

    /** `SessionMemory(max_turns, ttl_minutes)`; the defaults are 5 and 30. */
    constructor(maxTurns: int, ttlMinutes: int)
      requires maxTurns > 0
      ensures this.maxTurns == maxTurns && this.ttlMinutes == ttlMinutes
      ensures store == map[]
      ensures Valid()
    {
      this.maxTurns := maxTurns;
      this.ttlMinutes := ttlMinutes;
      store := map[];
    }

    /** `add_exchange`: only the named session changes. */
    method AddExchange(sid: string, question: string, answer: string, now: int)
      requires Valid()
      modifies this
      ensures Valid()
      ensures store == old(store)[sid := Appended(Prior(old(store), sid), maxTurns, question, answer, now)]
    {
      var entry := if sid in store then store[sid] else Entry([], 0);
      var messages := entry.messages + [Exchange(Take(question, 200), Take(answer, 300))];
      messages := Last(messages, maxTurns);
      AppendedValid(Prior(store, sid), maxTurns, question, answer, now);
      store := store[sid := Entry(messages, now)];
    }

    /** `get_context`: "" for an unknown session; "" and the session deleted
        once it has been idle longer than the TTL; otherwise the context
        lines joined by newlines, with the store unchanged. */
    method GetContext(sid: string, now: int) returns (ctx: string)
      requires Valid()
      modifies this
      ensures Valid()
      ensures sid !in old(store) ==> ctx == "" && store == old(store)
      ensures sid in old(store) && Expired(old(store)[sid], ttlMinutes, now) ==>
        ctx == "" && store == old(store) - {sid}
      ensures sid in old(store) && !Expired(old(store)[sid], ttlMinutes, now) ==>
        ctx == Join("\n", Lines(old(store)[sid].messages)) && store == old(store)
    {
      if sid !in store {
        return "";
      }
      var entry := store[sid];
      if now - entry.lastActive > ttlMinutes * 60 {
        store := store - {sid};
        return "";
      }
      var lines: seq<string> := [];
      var i := 0;
      while i < |entry.messages|
        invariant 0 <= i <= |entry.messages|
        invariant lines == Lines(entry.messages[..i])
      {
        assert entry.messages[..i + 1][..i] == entry.messages[..i];
        lines := lines + [QuestionPrefix + entry.messages[i].q];
        lines := lines + [AnswerPrefix + entry.messages[i].a];
        i := i + 1;
      }
      assert entry.messages[..i] == entry.messages;
      ctx := Join("\n", lines);
    }

    /** `clear_session`: removes the named session, if any, and nothing else. */
    method ClearSession(sid: string)
      requires Valid()
      modifies this
      ensures Valid()
      ensures store == old(store) - {sid}
    {
      store := store - {sid};
    }

    /** `cleanup`: deletes exactly the expired sessions and returns how many. */
    method Cleanup(now: int) returns (count: nat)
      requires Valid()
      modifies this
      ensures Valid()
      ensures store == Live(old(store), ttlMinutes, now)
      ensures count == |ExpiredIds(old(store), ttlMinutes, now)|
    {
      var expired := ExpiredIds(store, ttlMinutes, now);
      count := |expired|;
      var pending := expired;
      ghost var start := store;
      while pending != {}
        invariant pending <= expired
        invariant store == map sid | sid in start && sid !in expired - pending :: start[sid]
        decreases |pending|
      {
        var sid :| sid in pending;
        store := store - {sid};
        pending := pending - {sid};
      }
      assert store == Live(start, ttlMinutes, now);
    }
  }
}
