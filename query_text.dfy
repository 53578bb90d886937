/** Query preparation in back/retriever.py: small-talk detection, colloquial
    normalisation, synonym expansion, language detection and the problem
    number a question refers to. */
module QueryText {
  import opened Wrappers
  import opened Text

  /** SMALL_TALK: key -> canned reply, in dictionary order. */
  const SmallTalk: seq<(string, string)> := [
    ("سلام", "سلام! خوش آمدید.\nمن دستیار رساله آیت\U{200C}الله سید علی محمد دستغیب هستم.\nسوال فقهی خود را بپرسید."),
    ("خوبی", "ممنون! در خدمتم. چه سوالی دارید؟"),
    ("چطوری", "خوبم! آماده پاسخ به سوالات فقهی شما هستم."),
    ("ممنون", "خواهش می\U{200C}کنم! اگر سوال دیگری دارید بفرمایید."),
    ("مرسی", "خواهش می\U{200C}کنم!"),
    ("ممنونم", "خواهش می\U{200C}کنم! در خدمتم."),
    ("خداحافظ", "خداحافظ! موفق باشید."),
    ("بای", "خداحافظ!"),
    ("hello", "سلام! چه سوالی از رساله دارید؟"),
    ("hi", "سلام!"),
    ("کی هستی", "من دستیار رساله فقهی آیت\U{200C}الله سید علی محمد دستغیب هستم و سوالات فقهی را از رساله ایشان پاسخ می\U{200C}دهم."),
    ("چی میدونی", "رساله کامل آیت\U{200C}الله دستغیب را می\U{200C}دانم: از احکام طهارت، نماز، روزه، خمس، زکات تا احکام معاملات، ازدواج، طلاق و امر به معروف."),
    ("چه بلدی", "رساله کامل آیت\U{200C}الله دستغیب را می\U{200C}دانم. هر سوال فقهی که دارید بپرسید.")
  ]

  /** One colloquial fix: `from` is replaced by `to`. */
  datatype Fix = Fix(from: NonEmptyString, to: string)

  /** COLLOQUIAL_FIXES: colloquial phrase -> formal phrase, in dictionary order. */
  const ColloquialFixes: seq<Fix> := [
    Fix("رمضون", "رمضان"),
    Fix("ماه رمضون", "ماه رمضان"),
    Fix("نمازخوندن", "نماز خواندن"),
    Fix("نماز خوندن", "نماز خواندن"),
    Fix("وضوگرفتن", "وضو گرفتن"),
    Fix("وضو گرفتن", "وضو گرفتن"),
    Fix("دستشویی", "تخلی"),
    Fix("توالت", "تخلی"),
    Fix("عروسی", "ازدواج نکاح"),
    Fix("سیگار کشیدن", "سیگار دود دخان تنباکو"),
    Fix("سیگار کشیدن در", "دود سیگار تنباکو در"),
    Fix("قلیان کشیدن", "قلیان دود دخان"),
    Fix("ناپاک", "نجس"),
    Fix("پاک کردن", "تطهیر"),
    Fix("گناهه", "حرام است"),
    Fix("گناه داره", "حرام است"),
    Fix("چی میشه", "حکم چیست"),
    Fix("چیه حکمش", "حکم چیست"),
    Fix("حکمش چیه", "حکم چیست"),
    Fix("مشکلی داره", "جایز است یا خیر"),
    Fix("میشه", "جایز است"),
    Fix("نمیشه", "جایز نیست"),
    Fix("میتونم", "می\U{200C}توانم"),
    Fix("میتوانم", "می\U{200C}توانم"),
    Fix("چیه", "چیست"),
    Fix("کجاست", "کجاست"),
    Fix("باطله", "باطل است"),
    Fix("صحیحه", "صحیح است"),
    Fix("آب آلت", "منی مذی"),
    Fix("آبی که از آلت", "منی مذی"),
    Fix("آب مرد", "منی"),
    Fix("ریختن", "خروج"),
    Fix("ریخته", "خارج شده"),
    Fix("ریخته بشه", "خارج شود"),
    Fix("بریزه", "خارج شود"),
    Fix("خوردم", "خوردن"),
    Fix("بخورم", "خوردن"),
    Fix("بزنم", "زدن"),
    Fix("برم", "رفتن"),
    Fix("بیام", "آمدن"),
    Fix("بشینم", "نشستن"),
    Fix("حالا", "اکنون"),
    Fix("الان", "اکنون"),
    Fix("واسه", "برای"),
    Fix("بخاطر", "به خاطر"),
    Fix("اشکال داره", "اشکال دارد"),
    Fix("فرق داره", "تفاوت دارد"),
    Fix("آبدست", "وضو"),
    Fix("غسل کردن", "غسل")
  ]

  /** FIQH_EXPAND: word -> synonyms added to the search query, in dictionary order. */
  const FiqhExpand: seq<(string, string)> := [
    ("سیگار", "دود سیگار دخان تنباکو"),
    ("قلیان", "قلیان دود دخان"),
    ("روزه", "روزه صوم صائم"),
    ("رمضان", "رمضان ماه رمضان"),
    ("نماز", "نماز صلات"),
    ("وضو", "وضو طهارت"),
    ("غسل", "غسل جنابت"),
    ("نجس", "نجس نجاست"),
    ("پاک", "طاهر طهارت"),
    ("خون", "خون دم"),
    ("نفاس", "خون نفاس"),
    ("حیض", "حیض خون حیض"),
    ("جنب", "جنابت جنب"),
    ("ازدواج", "نکاح ازدواج عقد"),
    ("طلاق", "طلاق فسخ"),
    ("خرید", "بیع معامله خرید و فروش"),
    ("ربا", "ربا بهره سود"),
    ("خمس", "خمس"),
    ("زکات", "زکات"),
    ("حج", "حج"),
    ("منی", "منی مذی وذی جنابت"),
    ("مذی", "مذی وذی"),
    ("استحاضه", "استحاضه خون استحاضه"),
    ("میت", "میت مرده جنازه"),
    ("تیمم", "تیمم بدل وضو بدل غسل"),
    ("شک", "شک شکیات"),
    ("سجده", "سجده سجود"),
    ("رکوع", "رکوع"),
    ("قبله", "قبله استقبال"),
    ("حرام", "حرام محرمات"),
    ("مکروه", "مکروه مکروهات"),
    ("واجب", "واجب واجبات فرض"),
    ("مستحب", "مستحب مستحبات")
  ]

  // ---------------------------------------------------------------- small talk

  /** The text `is_small_talk` inspects: stripped and lower-cased. */
  function SmallTalkKey(q: string): string
  {
    Lower(Strip(q))
  }

  /** Reply of the first entry whose key occurs in `ql` as a substring. */
  function FirstContained(ql: string, table: seq<(string, string)>): Option<string>
  {
    if table == [] then None
    else if Contains(ql, table[0].0) then Some(table[0].1)
    else FirstContained(ql, table[1..])
  }

  /** `is_small_talk` as written: a key anywhere inside the question, even
      inside a longer word, selects the reply. */
  function IsSmallTalkAsWritten(q: string): Option<string>
  {
    var ql := SmallTalkKey(q);
    if |ql| > 70 then None else FirstContained(ql, SmallTalk)
  }

  /** A character that continues a word: a Latin letter or digit, a
      character of the Arabic block, or the zero-width non-joiner. */
  predicate WordChar(c: char)
  {
    ('a' <= c <= 'z') || ('A' <= c <= 'Z') || ('0' <= c <= '9') ||
    ('\U{0600}' <= c <= '\U{06FF}') || c == '\U{200C}'
  }

  /** `k` occurs at `i` and is not part of a longer word. */
  predicate WordAt(s: string, k: string, i: int)
  {
    OccursAt(s, k, i) &&
    (i == 0 || !WordChar(s[i - 1])) &&
    (i + |k| == |s| || !WordChar(s[i + |k|]))
  }

  /** `k` occurs as a whole word somewhere at or after `i`. */
  predicate HasWordFrom(s: string, k: string, i: nat)
    requires i <= |s|
    decreases |s| - i
  {
    WordAt(s, k, i) || (i < |s| && HasWordFrom(s, k, i + 1))
  }

  lemma {:induction false} HasWordFromIff(s: string, k: string, i: nat)
    requires i <= |s|
    ensures HasWordFrom(s, k, i) <==> exists j :: i <= j <= |s| && WordAt(s, k, j)
    decreases |s| - i
  {
    if i < |s| {
      HasWordFromIff(s, k, i + 1);
    }
  }

  function FirstWord(ql: string, table: seq<(string, string)>): Option<string>
  {
    if table == [] then None
    else if HasWordFrom(ql, table[0].0, 0) then Some(table[0].1)
    else FirstWord(ql, table[1..])
  }

  /** `is_small_talk` with keys matched as whole words only. */
  function IsSmallTalk(q: string): Option<string>
  {
    var ql := SmallTalkKey(q);
    if |ql| > 70 then None else FirstWord(ql, SmallTalk)
  }

  lemma {:induction false} FirstWordSpec(ql: string, table: seq<(string, string)>)
    ensures FirstWord(ql, table) == None <==>
      forall i :: 0 <= i < |table| ==> !HasWordFrom(ql, table[i].0, 0)
    ensures FirstWord(ql, table).Some? ==>
      exists i :: 0 <= i < |table| && FirstWord(ql, table) == Some(table[i].1) &&
        HasWordFrom(ql, table[i].0, 0) &&
        forall j :: 0 <= j < i ==> !HasWordFrom(ql, table[j].0, 0)
    decreases |table|
  {
    if table != [] {
      FirstWordSpec(ql, table[1..]);
      if !HasWordFrom(ql, table[0].0, 0) && FirstWord(ql, table).Some? {
        var i :| 0 <= i < |table[1..]| && FirstWord(ql, table[1..]) == Some(table[1..][i].1) &&
          HasWordFrom(ql, table[1..][i].0, 0) &&
          forall j :: 0 <= j < i ==> !HasWordFrom(ql, table[1..][j].0, 0);
        assert FirstWord(ql, table) == Some(table[i + 1].1);
        forall j | 0 <= j < i + 1 ensures !HasWordFrom(ql, table[j].0, 0) {
          if j > 0 { assert table[j] == table[1..][j - 1]; }
        }
      }
      if forall i :: 1 <= i < |table| ==> !HasWordFrom(ql, table[i].0, 0) {
        assert forall i :: 0 <= i < |table[1..]| ==> table[1..][i] == table[i + 1];
      }
    }
  }

  /** The reply is given exactly when the stripped question has at most 70
      characters and some key occurs in it as a whole word; it is the reply
      of the first such key in table order. */
  lemma IsSmallTalkSpec(q: string)
    ensures var ql := SmallTalkKey(q);
      && (IsSmallTalk(q) == None <==>
          |ql| > 70 || forall i :: 0 <= i < |SmallTalk| ==> !HasWordFrom(ql, SmallTalk[i].0, 0))
      && (IsSmallTalk(q).Some? ==>
          exists i, j :: 0 <= i < |SmallTalk| && IsSmallTalk(q) == Some(SmallTalk[i].1) &&
            0 <= j <= |ql| && WordAt(ql, SmallTalk[i].0, j) &&
            forall k :: 0 <= k < i ==> !HasWordFrom(ql, SmallTalk[k].0, 0))
  {
    var ql := SmallTalkKey(q);
    FirstWordSpec(ql, SmallTalk);
    if IsSmallTalk(q).Some? {
      var i :| 0 <= i < |SmallTalk| && FirstWord(ql, SmallTalk) == Some(SmallTalk[i].1) &&
        HasWordFrom(ql, SmallTalk[i].0, 0) &&
        forall k :: 0 <= k < i ==> !HasWordFrom(ql, SmallTalk[k].0, 0);
      HasWordFromIff(ql, SmallTalk[i].0, 0);
    }
  }

  /** The first key of `table` contained anywhere in `ql` selects the reply;
      none is selected when no key is contained. */
  lemma {:induction false} FirstContainedSpec(ql: string, table: seq<(string, string)>)
    ensures FirstContained(ql, table) == None <==>
      forall i :: 0 <= i < |table| ==> !Contains(ql, table[i].0)
    ensures FirstContained(ql, table).Some? ==>
      exists i :: 0 <= i < |table| && FirstContained(ql, table) == Some(table[i].1) &&
        Contains(ql, table[i].0) &&
        forall j :: 0 <= j < i ==> !Contains(ql, table[j].0)
    decreases |table|
  {
    if table != [] {
      FirstContainedSpec(ql, table[1..]);
      if !Contains(ql, table[0].0) && FirstContained(ql, table).Some? {
        var i :| 0 <= i < |table[1..]| && FirstContained(ql, table[1..]) == Some(table[1..][i].1) &&
          Contains(ql, table[1..][i].0) &&
          forall j :: 0 <= j < i ==> !Contains(ql, table[1..][j].0);
        assert FirstContained(ql, table) == Some(table[i + 1].1);
        forall j | 0 <= j < i + 1 ensures !Contains(ql, table[j].0) {
          if j > 0 { assert table[j] == table[1..][j - 1]; }
        }
      }
      if forall i :: 1 <= i < |table| ==> !Contains(ql, table[i].0) {
        assert forall i :: 0 <= i < |table[1..]| ==> table[1..][i] == table[i + 1];
      }
    }
  }

  /** A key present as a whole word is present as a substring, so the
      substring lookup answers whenever the whole-word lookup does. */
  lemma {:induction false} FirstWordContained(ql: string, table: seq<(string, string)>)
    ensures FirstWord(ql, table).Some? ==> FirstContained(ql, table).Some?
    decreases |table|
  {
    if table != [] {
      if HasWordFrom(ql, table[0].0, 0) {
        HasWordFromIff(ql, table[0].0, 0);
        var j :| 0 <= j <= |ql| && WordAt(ql, table[0].0, j);
        ContainsIff(ql, table[0].0);
      } else {
        FirstWordContained(ql, table[1..]);
      }
    }
  }

  /** `is_small_talk` as written answers exactly when the stripped question
      has at most 70 characters and some key occurs in it anywhere; the
      reply is that of the first such key in table order. */
  lemma IsSmallTalkAsWrittenSpec(q: string)
    ensures var ql := SmallTalkKey(q);
      && (IsSmallTalkAsWritten(q) == None <==>
          |ql| > 70 || forall i :: 0 <= i < |SmallTalk| ==> !Contains(ql, SmallTalk[i].0))
      && (IsSmallTalkAsWritten(q).Some? ==>
          exists i, j :: 0 <= i < |SmallTalk| && IsSmallTalkAsWritten(q) == Some(SmallTalk[i].1) &&
            OccursAt(ql, SmallTalk[i].0, j) &&
            forall k :: 0 <= k < i ==> !Contains(ql, SmallTalk[k].0))
  {
    var ql := SmallTalkKey(q);
    FirstContainedSpec(ql, SmallTalk);
    if IsSmallTalkAsWritten(q).Some? {
      var i :| 0 <= i < |SmallTalk| && FirstContained(ql, SmallTalk) == Some(SmallTalk[i].1) &&
        Contains(ql, SmallTalk[i].0) &&
        forall k :: 0 <= k < i ==> !Contains(ql, SmallTalk[k].0);
      ContainsIff(ql, SmallTalk[i].0);
    }
  }

  /** The whole-word check only narrows the written one: every question it
      answers, the written check answers too. */
  lemma IsSmallTalkImpliesAsWritten(q: string)
    ensures IsSmallTalk(q).Some? ==> IsSmallTalkAsWritten(q).Some?
  {
    FirstWordContained(SmallTalkKey(q), SmallTalk);
  }

  /** "اسلام" (Islam) contains the greeting key "سلام", so the question gets
      the greeting as written; as a word of its own the key is not there. */
  lemma SmallTalkInsideWord()
    ensures IsSmallTalkAsWritten("اسلام") == Some(SmallTalk[0].1)
    ensures !HasWordFrom("اسلام", SmallTalk[0].0, 0)
  {
    var q := "اسلام";
    assert !IsSpace(q[0]) && !IsSpace(q[4]);
    assert Strip(q) == q;
    assert Lower(q) == q;
    assert OccursAt(q, SmallTalk[0].0, 1);
    ContainsIff(q, SmallTalk[0].0);
    HasWordFromIff(q, SmallTalk[0].0, 0);
    assert !WordAt(q, SmallTalk[0].0, 0) by { assert q[0..4] != SmallTalk[0].0; }
    assert !WordAt(q, SmallTalk[0].0, 1) by { assert WordChar(q[0]); }
  }

  // ------------------------------------------------------- colloquial fixes

  /** The fixes of `table` applied one after the other with `str.replace`. */
  function ApplyFixes(s: string, table: seq<Fix>): string
  {
    if table == [] then s
    else
      var last := table[|table| - 1];
      ReplaceAll(ApplyFixes(s, table[..|table| - 1]), last.from, last.to)
  }

  predicate IsMark(c: char)
  {
    c == '؟' || c == '?' || c == '!'
  }

  /** Index just past the run of question and exclamation marks at `i`. */
  function MarkRunEnd(s: string, i: nat): (j: nat)
    requires i <= |s|
    ensures i <= j <= |s|
    ensures j < |s| ==> !IsMark(s[j])
    ensures i < |s| && IsMark(s[i]) ==> j > i
    decreases |s| - i
  {
    if i < |s| && IsMark(s[i]) then MarkRunEnd(s, i + 1) else i
  }

  /** `re.sub(r'[؟?!]+', '؟', s)`. */
  function CollapseMarks(s: string): string
    decreases |s|
  {
    if s == [] then ""
    else if IsMark(s[0]) then "؟" + CollapseMarks(s[MarkRunEnd(s, 0)..])
    else [s[0]] + CollapseMarks(s[1..])
  }

  /** No `?`, no `!`, and never two Persian question marks in a row. */
  predicate MarksClean(r: string)
  {
    && (forall k :: 0 <= k < |r| ==> r[k] != '?' && r[k] != '!')
    && (forall k :: 0 <= k < |r| - 1 ==> !(r[k] == '؟' && r[k + 1] == '؟'))
  }

  lemma {:induction false} CollapseMarksClean(s: string)
    ensures MarksClean(CollapseMarks(s))
    ensures CollapseMarks(s) != [] && CollapseMarks(s)[0] == '؟' ==> s != [] && IsMark(s[0])
    decreases |s|
  {
    if s != [] {
      if IsMark(s[0]) {
        var j := MarkRunEnd(s, 0);
        CollapseMarksClean(s[j..]);
      } else {
        CollapseMarksClean(s[1..]);
      }
    }
  }

  lemma MarksCleanSlice(r: string, a: nat, b: nat)
    requires a <= b <= |r| && MarksClean(r)
    ensures MarksClean(r[a..b])
  {
    var t := r[a..b];
    assert forall k :: 0 <= k < |t| ==> t[k] == r[a + k];
  }

  /** `normalize_colloquial`: every fix in table order, then each run of
      question and exclamation marks becomes one `؟`, then `strip()`.
      The result has no `?` or `!` and no two adjacent `؟`. */
  method NormalizeColloquial(q: string) returns (r: string)
    ensures r == Strip(CollapseMarks(ApplyFixes(q, ColloquialFixes)))
    ensures MarksClean(r)
  {
    r := q;
    var i := 0;
    while i < |ColloquialFixes|
      invariant 0 <= i <= |ColloquialFixes|
      invariant r == ApplyFixes(q, ColloquialFixes[..i])
    {
      assert ColloquialFixes[..i + 1][..i] == ColloquialFixes[..i];
      r := ReplaceAll(r, ColloquialFixes[i].from, ColloquialFixes[i].to);
      i := i + 1;
    }
    assert ColloquialFixes[..i] == ColloquialFixes;
    var c := CollapseMarks(r);
    CollapseMarksClean(r);
    MarksCleanSlice(c, StripStart(c), StripEnd(c));
    r := Strip(c);
  }

  // ------------------------------------------------------------ expansion

  /** The synonyms of every entry whose word occurs in `q`, in table order. */
  function Expansions(q: string, table: seq<(string, string)>): seq<string>
  {
    if table == [] then []
    else
      var init := Expansions(q, table[..|table| - 1]);
      var last := table[|table| - 1];
      if Contains(q, last.0) then init + [last.1] else init
  }

  lemma {:induction false} ExpansionsEmpty(q: string, table: seq<(string, string)>)
    ensures Expansions(q, table) == [] <==> forall i :: 0 <= i < |table| ==> !Contains(q, table[i].0)
    decreases |table|
  {
    if table != [] {
      var init := table[..|table| - 1];
      ExpansionsEmpty(q, init);
      assert forall i :: 0 <= i < |init| ==> init[i] == table[i];
    }
  }

  /** Every synonym added belongs to a word that occurs in `q`, and the
      synonyms of every occurring word are added. */
  lemma {:induction false} ExpansionsMembers(q: string, table: seq<(string, string)>)
    ensures forall e :: e in Expansions(q, table) ==>
      exists i :: 0 <= i < |table| && table[i].1 == e && Contains(q, table[i].0)
    ensures forall i :: 0 <= i < |table| && Contains(q, table[i].0) ==> table[i].1 in Expansions(q, table)
    decreases |table|
  {
    if table != [] {
      var init := table[..|table| - 1];
      ExpansionsMembers(q, init);
      assert forall i :: 0 <= i < |init| ==> init[i] == table[i];
      forall e | e in Expansions(q, table)
        ensures exists i :: 0 <= i < |table| && table[i].1 == e && Contains(q, table[i].0)
      {
        if e in Expansions(q, init) {
          var i :| 0 <= i < |init| && init[i].1 == e && Contains(q, init[i].0);
          assert table[i] == init[i];
        } else {
          assert table[|table| - 1].1 == e;
        }
      }
    }
  }

  /** `expand_query`: the question itself when no FIQH_EXPAND word occurs in
      it, otherwise the question, a space and the synonyms joined by spaces. */
  method ExpandQuery(q: string) returns (r: string)
    ensures var ex := Expansions(q, FiqhExpand);
      r == if ex == [] then q else q + " " + Join(" ", ex)
    ensures StartsWith(r, q)
    ensures r == q <==> forall i :: 0 <= i < |FiqhExpand| ==> !Contains(q, FiqhExpand[i].0)
  {
    var expansions: seq<string> := [];
    var i := 0;
    while i < |FiqhExpand|
      invariant 0 <= i <= |FiqhExpand|
      invariant expansions == Expansions(q, FiqhExpand[..i])
    {
      assert FiqhExpand[..i + 1][..i] == FiqhExpand[..i];
      if Contains(q, FiqhExpand[i].0) {
        expansions := expansions + [FiqhExpand[i].1];
      }
      i := i + 1;
    }
    assert FiqhExpand[..i] == FiqhExpand;
    ExpansionsEmpty(q, FiqhExpand);
    if expansions != [] {
      r := q + " " + Join(" ", expansions);
      assert r[..|q|] == q;
    } else {
      r := q;
    }
  }

  // ------------------------------------------------------ language detection

  predicate IsArabicBlock(c: char)
  {
    '\U{0600}' <= c <= '\U{06FF}'
  }

  predicate IsLatinLetter(c: char)
  {
    ('a' <= c <= 'z') || ('A' <= c <= 'Z')
  }

  /** `len(re.findall(r'[؀-ۿ]', s))`. */
  function CountArabic(s: string): nat
  {
    if s == [] then 0 else CountArabic(s[..|s| - 1]) + (if IsArabicBlock(s[|s| - 1]) then 1 else 0)
  }

  /** `len(re.findall(r'[a-zA-Z]', s))`. */
  function CountLatin(s: string): nat
  {
    if s == [] then 0 else CountLatin(s[..|s| - 1]) + (if IsLatinLetter(s[|s| - 1]) then 1 else 0)
  }

  /** `re.search(r'[پچژگ]', s)`. */
  predicate HasPersianLetter(s: string)
  {
    exists k :: 0 <= k < |s| && s[k] in "پچژگ"
  }

  /** `detect_language`. */
  function DetectLanguage(q: string): (r: string)
    ensures r == "fa" || r == "en"
  {
    var persian := CountArabic(q);
    var english := CountLatin(q);
    if english > persian then "en"
    else if HasPersianLetter(q) then "fa"
    else if persian > 0 then "fa"
    else "en"
  }

  lemma {:induction false} CountArabicPositive(s: string, k: nat)
    requires k < |s| && IsArabicBlock(s[k])
    ensures CountArabic(s) > 0
    decreases |s|
  {
    if k < |s| - 1 {
      CountArabicPositive(s[..|s| - 1], k);
    }
  }

  /** Farsi exactly when the question has a character of the Arabic block
      and Latin letters do not outnumber those characters; the test for the
      four Persian-only letters never changes the outcome. */
  lemma DetectLanguageIff(q: string)
    ensures DetectLanguage(q) == "fa" <==> CountArabic(q) > 0 && CountLatin(q) <= CountArabic(q)
  {
    if HasPersianLetter(q) {
      var k :| 0 <= k < |q| && q[k] in "پچژگ";
      CountArabicPositive(q, k);
    }
  }

  // ---------------------------------------------------- problem numbers

  /** The four patterns of `extract_problem_number`, in list order. */
  datatype NumberPattern =
    | KeywordThenNumber   // (?:مسئله|مسأله|مساله|سوال)\s*(\d+)
    | NumberThenKeyword   // (\d+)\s*(?:ام|مین)?\s*(?:مسئله|مسأله)
    | NumberedLine        // ^(\d+)\s*[-\.\)]\s
    | LatinKeyword        // (?:masaleh|masale|question)\s*#?\s*(\d+)

  const NumberPatterns: seq<NumberPattern> :=
    [KeywordThenNumber, NumberThenKeyword, NumberedLine, LatinKeyword]

  const ProblemWords: seq<string> := ["مسئله", "مسأله", "مساله", "سوال"]
  const OrdinalSuffixes: seq<string> := ["ام", "مین"]
  const ProblemWordsAfter: seq<string> := ["مسئله", "مسأله"]
  const LatinWords: seq<string> := ["masaleh", "masale", "question"]

  /** End of the first alternative of `alts` that occurs at `i`, ignoring
      ASCII case (the patterns are searched with `re.IGNORECASE`). */
  function AltAt(s: string, i: nat, alts: seq<string>): (e: Option<nat>)
    requires i <= |s|
    ensures e.Some? ==> i < e.value <= |s|
  {
    if alts == [] then None
    else if alts[0] != [] && i + |alts[0]| <= |s| && Lower(s[i..i + |alts[0]|]) == alts[0]
    then Some(i + |alts[0]|)
    else AltAt(s, i, alts[1..])
  }

  /** The value of the digit run starting at `k`, if there is one (`(\d+)`). */
  function DigitsAt(s: string, k: nat): Option<nat>
    requires k <= |s|
  {
    var j := DigitRunEnd(s, k);
    if j > k then Some(DigitsValue(s[k..j])) else None
  }

  /** The number pattern `p` captures when the match starts at `i`, if it
      matches there. Every alternation of these patterns has alternatives
      none of which is a prefix of another, except `masaleh|masale`, where
      a following `h` makes the second alternative fail; greedy `\s*`, `\d+`
      and `#?` then never have to give characters back, so one match at `i`
      is found without backtracking. */
  function MatchAt(s: string, i: nat, p: NumberPattern): Option<nat>
    requires i <= |s|
  {
    match p
    case KeywordThenNumber =>
      (match AltAt(s, i, ProblemWords)
       case None => None
       case Some(e) => DigitsAt(s, SkipSpaces(s, e)))
    case NumberThenKeyword =>
      var j := DigitRunEnd(s, i);
      var k := SkipSpaces(s, j);
      var withSuffix := match AltAt(s, k, OrdinalSuffixes)
        case None => false
        case Some(e) => AltAt(s, SkipSpaces(s, e), ProblemWordsAfter).Some?;
      if j > i && (withSuffix || AltAt(s, k, ProblemWordsAfter).Some?)
      then Some(DigitsValue(s[i..j])) else None
    case NumberedLine =>
      var j := DigitRunEnd(s, 0);
      var k := SkipSpaces(s, j);
      if i == 0 && j > 0 && k + 1 < |s| && s[k] in "-.)" && IsSpace(s[k + 1])
      then Some(DigitsValue(s[0..j])) else None
    case LatinKeyword =>
      (match AltAt(s, i, LatinWords)
       case None => None
       case Some(e) =>
         var k := SkipSpaces(s, e);
         var k2 := if k < |s| && s[k] == '#' then SkipSpaces(s, k + 1) else k;
         DigitsAt(s, k2))
  }

  /** The outcome of trying the pattern at every position of `s`. */
  function Matches(s: string, p: NumberPattern): (ms: seq<Option<nat>>)
    ensures |ms| == |s| + 1
    ensures forall j :: 0 <= j <= |s| ==> ms[j] == MatchAt(s, j, p)
  {
    seq(|s| + 1, j requires 0 <= j <= |s| => MatchAt(s, j, p))
  }

  /** The first outcome from position `i` on that is a match. */
  function Leftmost(ms: seq<Option<nat>>, i: nat): Option<nat>
    requires i <= |ms|
    decreases |ms| - i
  {
    if i == |ms| then None
    else if ms[i].Some? then ms[i]
    else Leftmost(ms, i + 1)
  }

  /** `re.search`: the match at the leftmost position where there is one. */
  function Search(s: string, p: NumberPattern): Option<nat>
  {
    Leftmost(Matches(s, p), 0)
  }

  /** Nothing is found exactly when nothing matches. */
  lemma {:induction false} LeftmostNone(ms: seq<Option<nat>>, i: nat)
    requires i <= |ms|
    ensures Leftmost(ms, i) == None <==> forall j :: i <= j < |ms| ==> ms[j] == None
    decreases |ms| - i
  {
    if i < |ms| && ms[i].None? {
      LeftmostNone(ms, i + 1);
    }
  }

  /** What is found is the match at the first matching position. */
  lemma {:induction false} LeftmostFirst(ms: seq<Option<nat>>, i: nat) returns (j: nat)
    requires i <= |ms| && Leftmost(ms, i).Some?
    ensures i <= j < |ms| && Leftmost(ms, i) == ms[j]
    ensures forall j' :: i <= j' < j ==> ms[j'] == None
    decreases |ms| - i
  {
    if ms[i].Some? {
      j := i;
    } else {
      j := LeftmostFirst(ms, i + 1);
    }
  }

  /** `re.search` finds nothing exactly when the pattern matches nowhere. */
  lemma SearchNone(s: string, p: NumberPattern)
    ensures Search(s, p) == None <==> forall j :: 0 <= j <= |s| ==> MatchAt(s, j, p) == None
  {
    var ms := Matches(s, p);
    LeftmostNone(ms, 0);
    assert (forall j :: 0 <= j < |ms| ==> ms[j] == None) <==> (forall j :: 0 <= j <= |s| ==> MatchAt(s, j, p) == None);
  }

  /** What `re.search` finds is the match at the leftmost matching position. */
  lemma SearchFirst(s: string, p: NumberPattern) returns (j: nat)
    requires Search(s, p).Some?
    ensures j <= |s| && Search(s, p) == MatchAt(s, j, p)
    ensures forall j' :: 0 <= j' < j ==> MatchAt(s, j', p) == None
  {
    var ms := Matches(s, p);
    j := LeftmostFirst(ms, 0);
    forall j' | 0 <= j' < j ensures MatchAt(s, j', p) == None {
      assert ms[j'] == None;
    }
  }

  function FirstPattern(q: string, ps: seq<NumberPattern>): Option<nat>
  {
    if ps == [] then None
    else if Search(q, ps[0]).Some? then Search(q, ps[0])
    else FirstPattern(q, ps[1..])
  }

  /** `extract_problem_number`. */
  function ExtractProblemNumber(q: string): Option<nat>
  {
    FirstPattern(q, NumberPatterns)
  }

  lemma {:induction false} FirstPatternSpec(q: string, ps: seq<NumberPattern>)
    ensures FirstPattern(q, ps) == None <==>
      forall k, j :: 0 <= k < |ps| && 0 <= j <= |q| ==> MatchAt(q, j, ps[k]) == None
    ensures FirstPattern(q, ps).Some? ==>
      exists k, j :: 0 <= k < |ps| && 0 <= j <= |q| && FirstPattern(q, ps) == MatchAt(q, j, ps[k]) &&
        (forall j' :: 0 <= j' < j ==> MatchAt(q, j', ps[k]) == None) &&
        (forall k', j' :: 0 <= k' < k && 0 <= j' <= |q| ==> MatchAt(q, j', ps[k']) == None)
    decreases |ps|
  {
    if ps != [] {
      SearchNone(q, ps[0]);
      FirstPatternSpec(q, ps[1..]);
      if Search(q, ps[0]).None? {
        assert forall k :: 0 < k < |ps| ==> ps[k] == ps[1..][k - 1];
        if FirstPattern(q, ps).Some? {
          var k, j :| 0 <= k < |ps[1..]| && 0 <= j <= |q| && FirstPattern(q, ps[1..]) == MatchAt(q, j, ps[1..][k]) &&
            (forall j' :: 0 <= j' < j ==> MatchAt(q, j', ps[1..][k]) == None) &&
            (forall k', j' :: 0 <= k' < k && 0 <= j' <= |q| ==> MatchAt(q, j', ps[1..][k']) == None);
          assert FirstPattern(q, ps) == MatchAt(q, j, ps[k + 1]);
        }
      } else {
        var j := SearchFirst(q, ps[0]);
        assert FirstPattern(q, ps) == MatchAt(q, j, ps[0]);
      }
    }
  }

  /** The number comes from the first pattern, in list order, that matches
      anywhere, at the leftmost position where it matches; None when no
      pattern matches. */
  lemma ExtractProblemNumberSpec(q: string)
    ensures ExtractProblemNumber(q) == None <==>
      forall k, j :: 0 <= k < 4 && 0 <= j <= |q| ==> MatchAt(q, j, NumberPatterns[k]) == None
    ensures ExtractProblemNumber(q).Some? ==>
      exists k, j :: 0 <= k < 4 && 0 <= j <= |q| && ExtractProblemNumber(q) == MatchAt(q, j, NumberPatterns[k]) &&
        (forall j' :: 0 <= j' < j ==> MatchAt(q, j', NumberPatterns[k]) == None) &&
        (forall k', j' :: 0 <= k' < k && 0 <= j' <= |q| ==> MatchAt(q, j', NumberPatterns[k']) == None)
  {
    FirstPatternSpec(q, NumberPatterns);
  }

  lemma LowerProblemWord(q: string)
    requires StartsWith(q, ProblemWords[0])
    ensures Lower(q[0..5]) == ProblemWords[0]
  {
    var w := q[0..5];
    assert w == ProblemWords[0];
    forall k | 0 <= k < 5 ensures LowerChar(w[k]) == w[k] {
      assert w[k] >= '\U{0600}';
    }
  }

  lemma KeywordNumberMatch(n: nat)
    ensures MatchAt("مسئله " + NatToString(n), 0, KeywordThenNumber) == Some(n)
  {
    var d := NatToString(n);
    var q := "مسئله " + d;
    NatToStringValue(n);
    assert q[..5] == ProblemWords[0];
    LowerProblemWord(q);
    assert AltAt(q, 0, ProblemWords) == Some(5);
    assert q[5] == ' ' && '0' <= q[6] <= '9';
    assert SkipSpaces(q, 6) == 6;
    assert SkipSpaces(q, 5) == 6;
    DigitRunToEnd(q, 6);
    assert q[6..|q|] == d;
    assert |q| > 6;
    assert DigitsValue(q[6..|q|]) == n;
  }

  /** Writing a number after the word "مسئله" and a space gives it back. */
  lemma ExtractProblemNumberRoundTrip(n: nat)
    ensures ExtractProblemNumber("مسئله " + NatToString(n)) == Some(n)
  {
    var q := "مسئله " + NatToString(n);
    KeywordNumberMatch(n);
    assert Matches(q, KeywordThenNumber)[0] == Some(n);
    assert Search(q, KeywordThenNumber) == Some(n);
    assert NumberPatterns[0] == KeywordThenNumber;
  }

  lemma {:induction false} DigitRunToEnd(s: string, i: nat)
    requires i <= |s| && forall k :: i <= k < |s| ==> '0' <= s[k] <= '9'
    ensures DigitRunEnd(s, i) == |s|
    decreases |s| - i
  {
    if i < |s| {
      DigitRunToEnd(s, i + 1);
    }
  }
}
