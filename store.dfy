/** The route handlers of back/main.py that change the JSON data files, over
    an object holding what each file contains. Every handler reads its file,
    changes the value as the Records functions say, and writes it back. */
module AppStore {
  import opened Wrappers
  import opened Records
  import Security
  import Analytics

  /** What `analytics` returns. */
  datatype Summary = Summary(
    totalUsers: nat, totalBugs: nat, openBugs: nat, totalTickets: nat, openTickets: nat,
    questionsToday: nat, questionsTotal: nat,
    dailyQuestions: seq<(string, nat)>, topKeywords: seq<(string, nat)>)

  class AppData {
    var questions: seq<LoggedQuestion>
    var broadcasts: seq<Broadcast>
    var settings: map<string, Json>
    var tickets: seq<Ticket>
    var bugs: seq<Bug>
    var users: map<string, Account>

    /** The files before any request: empty lists, the default settings of
        `get_settings` and the single admin account of `get_users`, whose
        password hash is `adminHash`. */
    constructor(adminHash: string, now: string)
      ensures questions == [] && broadcasts == [] && tickets == [] && bugs == []
      ensures settings == DefaultSettings
      ensures users == map[AdminName := Account(adminHash, "admin", now)]
    {
      questions, broadcasts, tickets, bugs := [], [], [], [];
      settings := DefaultSettings;
      users := map[AdminName := Account(adminHash, "admin", now)];
    }

    /** `log_question(username, question)` at time `now`. */
    method LogQuestion(username: string, question: string, now: string)
      modifies this`questions
      ensures questions == Logged(old(questions), LogEntry(username, question, now))
    {
      questions := questions + [LogEntry(username, question, now)];
      if |questions| > QuestionLogCap {
        questions := questions[|questions| - QuestionLogCap..];
      }
    }

    /** `send_broadcast` by `author` at time `now`; `id` stands for the
        shortened uuid. */
    method SendBroadcast(id: string, title: string, message: string, now: string, author: string,
                         dangerous: string -> bool) returns (r: Result<string>)
      modifies this`broadcasts
      ensures NewBroadcast(id, title, message, now, author, dangerous).Err? ==>
        r == Err(Security.BadRequest) && broadcasts == old(broadcasts)
      ensures NewBroadcast(id, title, message, now, author, dangerous).Ok? ==>
        r == Ok(id) && broadcasts == Pushed(old(broadcasts), NewBroadcast(id, title, message, now, author, dangerous).value)
    {
      var b := NewBroadcast(id, title, message, now, author, dangerous);
      if b.Err? {
        return Err(b.status);
      }
      broadcasts := [b.value] + broadcasts;
      if |broadcasts| > BroadcastCap {
        broadcasts := broadcasts[..BroadcastCap];
      }
      r := Ok(id);
    }

    /** `save_settings(updates)`: the loop over the request's items. */
    method SaveSettings(updates: map<string, Json>)
      modifies this`settings
      ensures settings == Merged(old(settings), updates)
    {
      var pending := updates.Keys;
      while pending != {}
        invariant pending <= updates.Keys
        invariant settings == old(settings) + map k | k in updates && k !in pending && k in AllowedSettings :: updates[k]
        decreases pending
      {
        var k :| k in pending;
        if k in AllowedSettings {
          settings := settings[k := updates[k]];
        }
        pending := pending - {k};
      }
    }

    /** `reply(tid, message)` by `u` at time `at`. */
    method Reply(tid: string, u: Caller, message: string, at: string, dangerous: string -> bool)
      returns (r: Result<()>)
      modifies this`tickets
      ensures var spec := Replying(old(tickets), tid, u, message, at, dangerous);
        && (spec.Ok? ==> r == Ok(()) && tickets == spec.value)
        && (spec.Err? ==> r == Err(spec.status) && tickets == old(tickets))
    {
      var i := 0;
      while i < |tickets|
        invariant 0 <= i <= |tickets| && tickets == old(tickets)
        invariant forall j :: 0 <= j < i ==> tickets[j].id != tid
      {
        if tickets[i].id == tid {
          assert TicketAt(tickets, tid) == Some(i);
          if !IsAdmin(u) && tickets[i].username != u.name {
            return Err(Forbidden);
          }
          var text := Security.SanitizeInput(message, ReplyLength, dangerous);
          if text.Err? {
            return Err(text.status);
          }
          tickets := tickets[i := Replied(tickets[i], u, text.value, at)];
          return Ok(());
        }
        i := i + 1;
      }
      r := Err(NotFound);
    }

    /** `close_ticket(tid)`. */
    method CloseTicket(tid: string) returns (r: Result<()>)
      modifies this`tickets
      ensures var spec := Closing(old(tickets), tid);
        && (spec.Ok? ==> r == Ok(()) && tickets == spec.value)
        && (spec.Err? ==> r == Err(NotFound) && tickets == old(tickets))
    {
      var i := 0;
      while i < |tickets|
        invariant 0 <= i <= |tickets| && tickets == old(tickets)
        invariant forall j :: 0 <= j < i ==> tickets[j].id != tid
      {
        if tickets[i].id == tid {
          assert TicketAt(tickets, tid) == Some(i);
          tickets := tickets[i := tickets[i].(status := "closed")];
          return Ok(());
        }
        i := i + 1;
      }
      r := Err(NotFound);
    }

    /** `update_bug(bid, status)` at time `now`; it always reports success. */
    method UpdateBug(bid: string, status: string, now: string)
      modifies this`bugs
      ensures bugs == BugUpdated(old(bugs), bid, status, now)
    {
      var i := 0;
      while i < |bugs|
        invariant 0 <= i <= |bugs| && bugs == old(bugs)
        invariant forall j :: 0 <= j < i ==> bugs[j].id != bid
      {
        if bugs[i].id == bid {
          assert BugAt(bugs, bid) == Some(i);
          bugs := bugs[i := bugs[i].(status := status, updatedAt := Some(now))];
          return;
        }
        i := i + 1;
      }
    }

    /** `create_user(username, password, role)` at time `now`; `hash` stands
        for `hash_password`. */
    method CreateUser(username: string, password: string, role: string, now: string,
                      hash: string -> string) returns (r: Result<()>)
      modifies this`users
      ensures var spec := Creating(old(users), username, password, role, now, hash);
        && (spec.Ok? ==> r == Ok(()) && users == spec.value)
        && (spec.Err? ==> r == Err(Security.BadRequest) && users == old(users))
    {
      var un := Security.SanitizeUsername(username);
      if un.Err? {
        return Err(un.status);
      }
      var pw := Security.SanitizePassword(password);
      if pw.Err? {
        return Err(pw.status);
      }
      if un.value in users {
        return Err(Security.BadRequest);
      }
      if !ValidRole(role) {
        return Err(Security.BadRequest);
      }
      users := users[un.value := Account(hash(pw.value), role, now)];
      r := Ok(());
      CreatingCorrect(old(users), username, password, role, now, hash);
    }

    /** `del_user(uname)`. */
    method DeleteUser(uname: string) returns (r: Result<()>)
      modifies this`users
      ensures var spec := Deleting(old(users), uname);
        && (spec.Ok? ==> r == Ok(()) && users == spec.value)
        && (spec.Err? ==> r == Err(spec.status) && users == old(users))
    {
      if uname == AdminName {
        return Err(Security.BadRequest);
      }
      if uname !in users {
        return Err(NotFound);
      }
      users := users - {uname};
      r := Ok(());
    }

    /** `analytics` on day `today` (an ISO date). */
    method Summarize(today: string) returns (s: Summary)
      ensures s.totalUsers == |users| && s.totalBugs == |bugs| && s.totalTickets == |tickets|
      ensures s.openBugs == Analytics.Count(bugs, Analytics.IsOpenBug)
      ensures s.openTickets == Analytics.Count(tickets, Analytics.IsOpenTicket)
      ensures s.questionsToday == Analytics.Today(questions, today) && s.questionsTotal == |questions|
      ensures Analytics.DailyTally(questions, s.dailyQuestions)
      ensures Analytics.TopTally(questions, s.topKeywords)
    {
      var daily := Analytics.DailyQuestions(questions);
      var top := Analytics.TopKeywords(questions);
      s := Summary(|users|, |bugs|, Analytics.Count(bugs, Analytics.IsOpenBug), |tickets|,
                   Analytics.Count(tickets, Analytics.IsOpenTicket),
                   Analytics.Today(questions, today), |questions|, daily, top);
    }
  }
}
