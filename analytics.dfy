/** The figures of `analytics` in back/main.py: counts over the bug, ticket
    and question files, the questions of the latest seven days and the most
    frequent words of the latest questions. */
module Analytics {
  import opened Text
  import opened Ranking
  import Keywords
  import opened Records

  /** `daily_questions` covers this many days. */
  const DayCount: nat := 7
  /** A timestamp's first ten characters name its day. */
  const DayLength: nat := 10
  /** `top_keywords` reads this many of the latest questions, counts words
      longer than `MinWordLength` and keeps `TopCount` of them. */
  const RecentQuestions: nat := 500
  const MinWordLength: nat := 2
  const TopCount: nat := 10

  // ------------------------------------------------------------------ counts

  /** `sum(1 for x in s if p(x))`. */
  function Count<T>(s: seq<T>, p: T -> bool): (n: nat)
    ensures n <= |s|
    ensures n == |s| <==> forall k :: 0 <= k < |s| ==> p(s[k])
    ensures n == 0 <==> forall k :: 0 <= k < |s| ==> !p(s[k])
  {
    if s == [] then 0
    else
      var n := Count(s[..|s| - 1], p);
      assert forall k :: 0 <= k < |s| - 1 ==> s[..|s| - 1][k] == s[k];
      n + (if p(s[|s| - 1]) then 1 else 0)
  }

  function IsOpenBug(b: Bug): bool { b.status == "open" }
  function IsOpenTicket(t: Ticket): bool { t.status == "open" }

  // ------------------------------------------------------------- daily counts

  /** `q.get("timestamp", "")[:10]`. */
  function DayOf(q: LoggedQuestion): string
  {
    Take(q.timestamp, DayLength)
  }

  /** The days the `daily_counts` loop counts, one per question whose day is
      not empty, in log order. */
  function Days(qs: seq<LoggedQuestion>): seq<string>
  {
    if qs == [] then []
    else
      var d := DayOf(qs[|qs| - 1]);
      Days(qs[..|qs| - 1]) + (if d != "" then [d] else [])
  }

  /** The counted days are exactly the non-empty days of the questions. */
  lemma {:induction false} DaysMembers(qs: seq<LoggedQuestion>, d: string)
    ensures d in Days(qs) <==> d != "" && exists k :: 0 <= k < |qs| && DayOf(qs[k]) == d
    decreases |qs|
  {
    if qs != [] {
      var n := |qs| - 1;
      DaysMembers(qs[..n], d);
      if d != "" && (exists k :: 0 <= k < |qs| && DayOf(qs[k]) == d) {
        var k :| 0 <= k < |qs| && DayOf(qs[k]) == d;
        if k < n {
          assert qs[..n][k] == qs[k];
        }
      }
      if d in Days(qs[..n]) {
        var k :| 0 <= k < n && DayOf(qs[..n][k]) == d;
        assert qs[..n][k] == qs[k];
      }
    }
  }

  /** A day is counted once per question of that day. */
  lemma {:induction false} DaysCount(qs: seq<LoggedQuestion>, d: string)
    requires d != ""
    ensures Occurrences(Days(qs), d) == Count(qs, (q: LoggedQuestion) => DayOf(q) == d)
    decreases |qs|
  {
    if qs != [] {
      DaysCount(qs[..|qs| - 1], d);
    }
  }

  /** `questions_today`. */
  function Today(qs: seq<LoggedQuestion>, today: string): nat
  {
    Count(qs, (q: LoggedQuestion) => StartsWith(q.timestamp, today))
  }

  /** For a ten-character date, `questions_today` agrees with that date's
      entry of the daily tally. */
  lemma TodayIsDailyCount(qs: seq<LoggedQuestion>, today: string)
    requires |today| == DayLength
    ensures Today(qs, today) == Occurrences(Days(qs), today)
  {
    DaysCount(qs, today);
    SameCount(qs, (q: LoggedQuestion) => StartsWith(q.timestamp, today),
              (q: LoggedQuestion) => DayOf(q) == today);
  }

  lemma {:induction false} SameCount<T>(s: seq<T>, p: T -> bool, p': T -> bool)
    requires forall x :: p(x) == p'(x)
    ensures Count(s, p) == Count(s, p')
    decreases |s|
  {
    if s != [] {
      SameCount(s[..|s| - 1], p, p');
    }
  }

  /** Python's `<` on strings: code points compared from the left, a proper
      prefix first. */
  predicate Below(a: string, b: string)
    decreases |a|
  {
    if a == [] then b != []
    else b != [] && (a[0] < b[0] || (a[0] == b[0] && Below(a[1..], b[1..])))
  }

  lemma {:induction false} BelowIrreflexive(a: string)
    ensures !Below(a, a)
    decreases |a|
  {
    if a != [] {
      BelowIrreflexive(a[1..]);
    }
  }

  lemma {:induction false} BelowTransitive(a: string, b: string, c: string)
    requires Below(a, b) && Below(b, c)
    ensures Below(a, c)
    decreases |a|
  {
    if a != [] && a[0] == b[0] && b[0] == c[0] {
      BelowTransitive(a[1..], b[1..], c[1..]);
    }
  }

  lemma {:induction false} BelowTotal(a: string, b: string)
    requires a != b
    ensures Below(a, b) || Below(b, a)
    decreases |a|
  {
    if a != [] && b != [] && a[0] == b[0] {
      assert a == [a[0]] + a[1..] && b == [b[0]] + b[1..];
      BelowTotal(a[1..], b[1..]);
    }
  }

  ghost predicate Ascending(r: seq<string>)
  {
    forall i, j :: 0 <= i < j < |r| ==> Below(r[i], r[j])
  }

  /** `r` is `sorted(days)[-n:]` for distinct `days`: the `n` latest of them,
      or all, in ascending order. */
  ghost predicate Latest(days: seq<string>, r: seq<string>, n: nat)
  {
    && Ascending(r)
    && (forall d :: d in r ==> d in days)
    && |r| == (if n < |days| then n else |days|)
    && (forall d, e :: d in days && d !in r && e in r ==> Below(d, e))
  }

  /** Index of the latest of distinct days. */
  method LatestIndex(days: seq<string>) returns (m: nat)
    requires days != [] && NoDuplicates(days)
    ensures m < |days|
    ensures forall k :: 0 <= k < |days| && k != m ==> Below(days[k], days[m])
  {
    m := 0;
    var i := 1;
    while i < |days|
      invariant 1 <= i <= |days| && m < i
      invariant forall k :: 0 <= k < i && k != m ==> Below(days[k], days[m])
    {
      if Below(days[m], days[i]) {
        forall k | 0 <= k < i && k != m ensures Below(days[k], days[i]) {
          BelowTransitive(days[k], days[m], days[i]);
        }
        m := i;
      } else {
        BelowTotal(days[m], days[i]);
      }
      i := i + 1;
    }
  }

  /** `sorted(...)[-n:]` over the distinct days, by repeatedly moving the
      latest remaining day to the front of the result. */
  method LatestDays(days: seq<string>, n: nat) returns (r: seq<string>)
    requires NoDuplicates(days)
    ensures Latest(days, r, n)
  {
    r := [];
    var rest := days;
    while |r| < n && rest != []
      invariant NoDuplicates(rest)
      invariant Ascending(r)
      invariant |r| + |rest| == |days| && |r| <= n
      invariant forall d :: d in days <==> d in r || d in rest
      invariant forall d, e :: d in rest && e in r ==> Below(d, e)
      decreases |rest|
    {
      var m := LatestIndex(rest);
      var top := rest[m];
      var rest' := rest[..m] + rest[m + 1..];
      assert forall k :: 0 <= k < |rest'| ==> rest'[k] == if k < m then rest[k] else rest[k + 1];
      assert forall d :: d in rest <==> d in rest' || d == top;
      assert forall d :: d in rest' ==> Below(d, top);
      forall j | 0 <= j < |r| ensures Below(top, r[j]) {
        assert top in rest && r[j] in r;
      }
      r := [top] + r;
      rest := rest';
    }
  }

  lemma DistinctMembers<T>(ws: seq<T>)
    ensures NoDuplicates(Distinct(ws))
    ensures forall w :: w in Distinct(ws) <==> w in ws
  {
    DistinctCorrect(ws);
  }

  /** `daily` lists the latest seven days with questions, or all of them,
      ascending, each with its number of questions; every day left out is
      earlier than every day listed. */
  ghost predicate DailyTally(qs: seq<LoggedQuestion>, daily: seq<(string, nat)>)
  {
    && |daily| <= DayCount
    && (var n := |Distinct(Days(qs))|; |daily| == if DayCount < n then DayCount else n)
    && (forall i, j :: 0 <= i < j < |daily| ==> Below(daily[i].0, daily[j].0))
    && (forall k :: 0 <= k < |daily| ==>
          daily[k].0 in Days(qs) && daily[k].1 == Occurrences(Days(qs), daily[k].0))
    && (forall d, k :: d in Days(qs) && 0 <= k < |daily| && (forall i :: 0 <= i < |daily| ==> daily[i].0 != d) ==>
          Below(d, daily[k].0))
  }

  /** `daily_questions`: the latest seven days with questions, ascending,
      each with its number of questions. */
  method DailyQuestions(qs: seq<LoggedQuestion>) returns (daily: seq<(string, nat)>)
    ensures DailyTally(qs, daily)
  {
    var days := Days(qs);
    var keys, counts := CountWords(days);
    DistinctMembers(days);
    var latest := LatestDays(keys, DayCount);
    daily := seq(|latest|, k requires 0 <= k < |latest| => (latest[k], counts[latest[k]]));
    forall d, k | d in days && 0 <= k < |daily| && (forall i :: 0 <= i < |daily| ==> daily[i].0 != d)
      ensures Below(d, daily[k].0)
    {
      assert daily[k].0 == latest[k] && latest[k] in latest;
      assert d !in latest by {
        forall i | 0 <= i < |latest| ensures latest[i] != d {
          assert daily[i].0 == latest[i];
        }
      }
      assert d in keys;
    }
    forall k | 0 <= k < |daily| ensures daily[k].0 in days {
      assert latest[k] in latest;
    }
  }

  // ------------------------------------------------------------ top keywords

  /** The first whitespace at or after `i`. */
  function FieldEnd(s: string, i: nat): (j: nat)
    requires i <= |s|
    ensures i <= j <= |s|
    ensures forall k :: i <= k < j ==> !IsSpace(s[k])
    ensures j < |s| ==> IsSpace(s[j])
    decreases |s| - i
  {
    if i < |s| && !IsSpace(s[i]) then FieldEnd(s, i + 1) else i
  }

  /** `s.split()`: the maximal runs of non-whitespace characters, in order. */
  function Fields(s: string): seq<string>
    decreases |s|
  {
    var i := SkipSpaces(s, 0);
    if i == |s| then []
    else
      var j := FieldEnd(s, i);
      [s[i..j]] + Fields(s[j..])
  }

  /** Every field is a non-empty piece of `s` without whitespace; the
      converse is `FieldsComplete`. */
  lemma {:induction false} FieldsCorrect(s: string)
    ensures forall w :: w in Fields(s) ==>
      w != [] && (forall k :: 0 <= k < |w| ==> !IsSpace(w[k])) && exists i :: OccursAt(s, w, i)
    decreases |s|
  {
    var i := SkipSpaces(s, 0);
    if i < |s| {
      var j := FieldEnd(s, i);
      FieldsCorrect(s[j..]);
      assert OccursAt(s, s[i..j], i);
      forall w | w in Fields(s[j..]) ensures exists k :: OccursAt(s, w, k) {
        var k :| OccursAt(s[j..], w, k);
        OccursShift(s, j, w, k);
      }
    }
  }

  /** A maximal run of non-whitespace characters of `s`, from `a` to `b`. */
  ghost predicate RunOf(s: string, a: int, b: int)
  {
    && 0 <= a < b <= |s|
    && (forall k :: a <= k < b ==> !IsSpace(s[k]))
    && (a == 0 || IsSpace(s[a - 1]))
    && (b == |s| || IsSpace(s[b]))
  }

  /** Every maximal run of non-whitespace characters is a field: no word of
      the question is lost. */
  lemma {:induction false} FieldsComplete(s: string, a: int, b: int)
    requires RunOf(s, a, b)
    ensures s[a..b] in Fields(s)
    decreases |s|
  {
    var j := FieldEnd(s, SkipSpaces(s, 0));
    FieldsStep(s, a, b);
    if a != SkipSpaces(s, 0) {
      FieldsComplete(s[j..], a - j, b - j);
    }
  }

  /** One step of `FieldsComplete`: the run is the first field, or it is a
      run of what follows the first field, and a field there is a field of
      `s`. */
  lemma FieldsStep(s: string, a: int, b: int)
    requires RunOf(s, a, b)
    ensures var i := SkipSpaces(s, 0);
      var j := FieldEnd(s, i);
      && (a == i ==> s[a..b] in Fields(s))
      && (a != i ==>
            && j < a
            && RunOf(s[j..], a - j, b - j)
            && (s[j..][a - j..b - j] in Fields(s[j..]) ==> s[a..b] in Fields(s)))
  {
    var i := SkipSpaces(s, 0);
    var j := FieldEnd(s, i);
    FirstField(s, a, b);
    assert Fields(s) == [s[i..j]] + Fields(s[j..]);
    if a == i {
      assert Fields(s)[0] == s[a..b];
    } else {
      ShiftRun(s, j, a, b);
      if s[j..][a - j..b - j] in Fields(s[j..]) {
        InAfter(s[a..b], [s[i..j]], Fields(s[j..]));
      }
    }
  }

  /** The first field of `s` is the run from `a` to `b` or ends before it. */
  lemma FirstField(s: string, a: int, b: int)
    requires RunOf(s, a, b)
    ensures var i := SkipSpaces(s, 0);
      && i <= a
      && (a == i ==> FieldEnd(s, i) == b)
      && (a != i ==> FieldEnd(s, i) < a)
  {
    var i := SkipSpaces(s, 0);
    assert !IsSpace(s[a]);
    var j := FieldEnd(s, i);
    assert j < |s| ==> IsSpace(s[j]);
    assert b < |s| ==> IsSpace(s[b]);
    assert a > 0 ==> IsSpace(s[a - 1]);
  }

  /** A run after position `j` is a run of the rest of `s` from `j`. */
  lemma ShiftRun(s: string, j: nat, a: int, b: int)
    requires RunOf(s, a, b) && j < a
    ensures RunOf(s[j..], a - j, b - j)
    ensures s[j..][a - j..b - j] == s[a..b]
  {
    var t := s[j..];
    forall k | a - j <= k < b - j ensures !IsSpace(t[k]) {
      assert t[k] == s[k + j];
    }
    assert t[a - j - 1] == s[a - 1];
    if b - j < |t| { assert t[b - j] == s[b]; }
  }

  lemma InAfter<T>(x: T, h: seq<T>, t: seq<T>)
    requires x in t
    ensures x in h + t
  {
  }

  lemma OccursShift(s: string, j: nat, w: string, k: int)
    requires j <= |s| && OccursAt(s[j..], w, k)
    ensures OccursAt(s, w, j + k)
  {
    assert s[j + k..j + k + |w|] == s[j..][k..k + |w|];
  }

  /** The words of one question the `word_counts` loop counts. */
  function LongWords(ws: seq<string>): seq<string>
  {
    if ws == [] then []
    else LongWords(ws[..|ws| - 1]) + (if |ws[|ws| - 1]| > MinWordLength then [ws[|ws| - 1]] else [])
  }

  /** Every word counted for the questions `qs`, in order. */
  function CountedWords(qs: seq<LoggedQuestion>): seq<string>
  {
    if qs == [] then []
    else CountedWords(qs[..|qs| - 1]) + LongWords(Fields(qs[|qs| - 1].question))
  }

  /** A counted word is longer than two characters, has no whitespace and
      stands in one of the questions. */
  lemma {:induction false} CountedWordsCorrect(qs: seq<LoggedQuestion>)
    ensures forall w :: w in CountedWords(qs) ==>
      && |w| > MinWordLength
      && (forall k :: 0 <= k < |w| ==> !IsSpace(w[k]))
      && exists j, i :: 0 <= j < |qs| && OccursAt(qs[j].question, w, i)
    decreases |qs|
  {
    if qs != [] {
      var n := |qs| - 1;
      CountedWordsCorrect(qs[..n]);
      forall w | w in CountedWords(qs[..n]) ensures exists j, i :: 0 <= j < |qs| && OccursAt(qs[j].question, w, i) {
        var j, i :| 0 <= j < n && OccursAt(qs[..n][j].question, w, i);
        assert qs[..n][j] == qs[j];
      }
      var fs := Fields(qs[n].question);
      FieldsCorrect(qs[n].question);
      LongWordsMembers(fs);
    }
  }

  lemma {:induction false} LongWordsMembers(ws: seq<string>)
    ensures forall w :: w in LongWords(ws) <==> w in ws && |w| > MinWordLength
    decreases |ws|
  {
    if ws != [] {
      LongWordsMembers(ws[..|ws| - 1]);
      assert ws == ws[..|ws| - 1] + [ws[|ws| - 1]];
    }
  }

  /** The words `word_counts.most_common(10)` lists, for the log `qs`. */
  function TopWords(qs: seq<LoggedQuestion>): seq<string>
  {
    var ws := CountedWords(Last(qs, RecentQuestions));
    RankByCount(Distinct(ws), Keywords.Tally(ws), TopCount)
  }

  /** At most ten distinct words of the latest five hundred questions, each
      longer than two characters, by non-increasing count; no word left out
      is counted more often than one kept, and words with the same count
      keep the order of their first occurrence. */
  lemma TopWordsCorrect(qs: seq<LoggedQuestion>)
    ensures var ws, top := CountedWords(Last(qs, RecentQuestions)), TopWords(qs);
      && |top| <= TopCount
      && |top| == (var d := |Distinct(ws)|; if d < TopCount then d else TopCount)
      && NoDuplicates(top)
      && (forall w :: w in top ==> w in ws && |w| > MinWordLength && (forall k :: 0 <= k < |w| ==> !IsSpace(w[k])))
      && (forall i, j :: 0 <= i < j < |top| ==> Occurrences(ws, top[i]) >= Occurrences(ws, top[j]))
      && (forall w, u :: w in ws && w !in top && u in top ==> Occurrences(ws, w) <= Occurrences(ws, u))
      && (forall v :: KeyFilter(top, CountKey(Keywords.Tally(ws)), v) <= KeyFilter(Distinct(ws), CountKey(Keywords.Tally(ws)), v))
  {
    var ws := CountedWords(Last(qs, RecentQuestions));
    RankByCountCorrect(ws, Distinct(ws), Keywords.Tally(ws), TopCount);
    CountedWordsCorrect(Last(qs, RecentQuestions));
  }

  /** The `word_counts` loop's words for the questions `qs`. */
  method CollectWords(qs: seq<LoggedQuestion>) returns (words: seq<string>)
    ensures words == CountedWords(qs)
  {
    words := [];
    var i := 0;
    while i < |qs|
      invariant 0 <= i <= |qs|
      invariant words == CountedWords(qs[..i])
    {
      assert qs[..i + 1][..i] == qs[..i];
      var fs := Fields(qs[i].question);
      var k := 0;
      while k < |fs|
        invariant 0 <= k <= |fs|
        invariant words == CountedWords(qs[..i]) + LongWords(fs[..k])
      {
        assert fs[..k + 1][..k] == fs[..k];
        if |fs[k]| > MinWordLength {
          words := words + [fs[k]];
        }
        k := k + 1;
      }
      assert fs[..k] == fs;
      i := i + 1;
    }
    assert qs[..i] == qs;
  }

  /** `top` pairs the words of `TopWords(qs)` with their counts. */
  ghost predicate TopTally(qs: seq<LoggedQuestion>, top: seq<(string, nat)>)
  {
    && |top| == |TopWords(qs)|
    && forall k :: 0 <= k < |top| ==>
         top[k] == (TopWords(qs)[k], Occurrences(CountedWords(Last(qs, RecentQuestions)), TopWords(qs)[k]))
  }

  /** `top_keywords`: the words of the latest questions tallied, then
      `most_common(10)` with each word's count. */
  method TopKeywords(qs: seq<LoggedQuestion>) returns (top: seq<(string, nat)>)
    ensures TopTally(qs, top)
  {
    var words := CollectWords(Last(qs, RecentQuestions));
    var keys, counts := CountWords(words);
    assert counts == Keywords.Tally(words);
    var ranked := RankByCount(keys, counts, TopCount);
    assert forall w :: w in ranked ==> w in counts by {
      RankByCountCorrect(words, keys, counts, TopCount);
    }
    top := seq(|ranked|, k requires 0 <= k < |ranked| => (ranked[k], counts[ranked[k]]));
  }
}
