/** `esc` of front/js/utils.js: HTML-escapes a value before it is put into markup. */
module Escape {
  import opened Wrappers
  import opened Text

  /** JavaScript `(t || '')`: null and undefined (`None`) and "" all become "". */
  function OrEmpty(t: Option<string>): string
  {
    match t
    case None => ""
    case Some(s) => s
  }

  /** The chain of six global replaces exactly as written, `&` first. */
  function Chain(s: string): string
  {
    var s1 := ReplaceAll(s, "&", "&amp;");
    var s2 := ReplaceAll(s1, "<", "&lt;");
    var s3 := ReplaceAll(s2, ">", "&gt;");
    var s4 := ReplaceAll(s3, "\"", "&quot;");
    var s5 := ReplaceAll(s4, "'", "&#39;");
    ReplaceAll(s5, "\n", "<br>")
  }

  /** What one character becomes. */
  function EscapeChar(c: char): string
  {
    match c
    case '&' => "&amp;"
    case '<' => "&lt;"
    case '>' => "&gt;"
    case '"' => "&quot;"
    case '\'' => "&#39;"
    case '\n' => "<br>"
    case _ => [c]
  }

  /** Escaping character by character. */
  function EscapeMap(s: string): string
  {
    if s == [] then "" else EscapeChar(s[0]) + EscapeMap(s[1..])
  }

  /** `esc(t)`. */
  function Esc(t: Option<string>): (r: string)
    ensures r == EscapeMap(OrEmpty(t))
    ensures t == None || t == Some("") ==> r == ""
  {
    ChainIsEscapeMap(OrEmpty(t));
    Chain(OrEmpty(t))
  }

  lemma {:induction false} ReplaceCharAppend(a: string, b: string, c: char, rep: string)
    ensures ReplaceAll(a + b, [c], rep) == ReplaceAll(a, [c], rep) + ReplaceAll(b, [c], rep)
    decreases |a|
  {
    if a == [] {
      assert a + b == b;
    } else {
      ReplaceCharAppend(a[1..], b, c, rep);
      assert (a + b)[..1] == a[..1] && (a + b)[1..] == a[1..] + b;
    }
  }

  lemma ChainAppend(a: string, b: string)
    ensures Chain(a + b) == Chain(a) + Chain(b)
  {
    var a1, b1 := ReplaceAll(a, "&", "&amp;"), ReplaceAll(b, "&", "&amp;");
    ReplaceCharAppend(a, b, '&', "&amp;");
    var a2, b2 := ReplaceAll(a1, "<", "&lt;"), ReplaceAll(b1, "<", "&lt;");
    ReplaceCharAppend(a1, b1, '<', "&lt;");
    var a3, b3 := ReplaceAll(a2, ">", "&gt;"), ReplaceAll(b2, ">", "&gt;");
    ReplaceCharAppend(a2, b2, '>', "&gt;");
    var a4, b4 := ReplaceAll(a3, "\"", "&quot;"), ReplaceAll(b3, "\"", "&quot;");
    ReplaceCharAppend(a3, b3, '"', "&quot;");
    var a5, b5 := ReplaceAll(a4, "'", "&#39;"), ReplaceAll(b4, "'", "&#39;");
    ReplaceCharAppend(a4, b4, '\'', "&#39;");
    ReplaceCharAppend(a5, b5, '\n', "<br>");
  }

  /** Replacing a character that a text does not contain leaves it unchanged. */
  lemma {:induction false} ReplaceAbsent(s: string, c: char, rep: string)
    requires c !in s
    ensures ReplaceAll(s, [c], rep) == s
    decreases |s|
  {
    if s != [] {
      assert s[0] in s && s[0] != c;
      assert forall x :: x in s[1..] ==> x in s;
      ReplaceAbsent(s[1..], c, rep);
      assert s[..1] == [s[0]];
    }
  }

  lemma ReplaceOne(c: char, rep: string)
    ensures ReplaceAll([c], [c], rep) == rep
  {
    assert [c][1..] == [];
  }

  /** A character that is not escaped passes through every replace. */
  lemma ChainPlain(c: char)
    requires c !in "&<>\"'\n"
    ensures Chain([c]) == [c]
  {
    ReplaceAbsent([c], '&', "&amp;");
    ReplaceAbsent([c], '<', "&lt;");
    ReplaceAbsent([c], '>', "&gt;");
    ReplaceAbsent([c], '"', "&quot;");
    ReplaceAbsent([c], '\'', "&#39;");
    ReplaceAbsent([c], '\n', "<br>");
  }

  /** `e` contains none of the characters replaced after position `k` of the chain. */
  lemma ChainRest(e: string, k: nat)
    requires k <= 6
    requires k < 2 ==> '<' !in e
    requires k < 3 ==> '>' !in e
    requires k < 4 ==> '"' !in e
    requires k < 5 ==> '\'' !in e
    requires '\n' !in e
    ensures k < 2 ==> ReplaceAll(e, "<", "&lt;") == e
    ensures k < 3 ==> ReplaceAll(e, ">", "&gt;") == e
    ensures k < 4 ==> ReplaceAll(e, "\"", "&quot;") == e
    ensures k < 5 ==> ReplaceAll(e, "'", "&#39;") == e
    ensures ReplaceAll(e, "\n", "<br>") == e
  {
    if k < 2 { ReplaceAbsent(e, '<', "&lt;"); }
    if k < 3 { ReplaceAbsent(e, '>', "&gt;"); }
    if k < 4 { ReplaceAbsent(e, '"', "&quot;"); }
    if k < 5 { ReplaceAbsent(e, '\'', "&#39;"); }
    ReplaceAbsent(e, '\n', "<br>");
  }

  lemma ChainChar(c: char)
    ensures Chain([c]) == EscapeChar(c)
  {
    if c == '&' {
      ReplaceOne(c, "&amp;");
      ChainRest("&amp;", 1);
    } else if c == '<' {
      ReplaceAbsent([c], '&', "&amp;");
      ReplaceOne(c, "&lt;");
      ChainRest("&lt;", 2);
    } else if c == '>' {
      ReplaceAbsent([c], '&', "&amp;");
      ReplaceAbsent([c], '<', "&lt;");
      ReplaceOne(c, "&gt;");
      ChainRest("&gt;", 3);
    } else if c == '"' {
      ReplaceAbsent([c], '&', "&amp;");
      ReplaceAbsent([c], '<', "&lt;");
      ReplaceAbsent([c], '>', "&gt;");
      ReplaceOne(c, "&quot;");
      ChainRest("&quot;", 4);
    } else if c == '\'' {
      ReplaceAbsent([c], '&', "&amp;");
      ReplaceAbsent([c], '<', "&lt;");
      ReplaceAbsent([c], '>', "&gt;");
      ReplaceAbsent([c], '"', "&quot;");
      ReplaceOne(c, "&#39;");
      ChainRest("&#39;", 5);
    } else if c == '\n' {
      ReplaceAbsent([c], '&', "&amp;");
      ReplaceAbsent([c], '<', "&lt;");
      ReplaceAbsent([c], '>', "&gt;");
      ReplaceAbsent([c], '"', "&quot;");
      ReplaceAbsent([c], '\'', "&#39;");
      ReplaceOne(c, "<br>");
    } else {
      ChainPlain(c);
    }
  }

  /** The chained replaces are the per-character escape: because `&` goes
      first, no entity that a later replace introduces is escaped again. */
  lemma {:induction false} ChainIsEscapeMap(s: string)
    ensures Chain(s) == EscapeMap(s)
    decreases |s|
  {
    if s != [] {
      assert s == [s[0]] + s[1..];
      ChainAppend([s[0]], s[1..]);
      ChainChar(s[0]);
      ChainIsEscapeMap(s[1..]);
    }
  }

  /** HTML entity decoding of what `esc` produces (`<br>` read back as a newline). */
  function Unescape(s: string): string
    decreases |s|
  {
    if s == [] then ""
    else if StartsWith(s, "&amp;") then "&" + Unescape(s[5..])
    else if StartsWith(s, "&lt;") then "<" + Unescape(s[4..])
    else if StartsWith(s, "&gt;") then ">" + Unescape(s[4..])
    else if StartsWith(s, "&quot;") then "\"" + Unescape(s[6..])
    else if StartsWith(s, "&#39;") then "'" + Unescape(s[5..])
    else if StartsWith(s, "<br>") then "\n" + Unescape(s[4..])
    else [s[0]] + Unescape(s[1..])
  }

  /** Decoding reads a text starting with `p` by its first character. */
  lemma StartsWithHead(s: string, p: string)
    requires p != [] && StartsWith(s, p)
    ensures s[0] == p[0]
  {
    assert s[..|p|][0] == s[0];
  }

  lemma UnescapeStep(c: char, rest: string)
    ensures Unescape(EscapeChar(c) + rest) == [c] + Unescape(rest)
  {
    var x := EscapeChar(c);
    var e := x + rest;
    assert e[|x|..] == rest;
    assert e[..|x|] == x;
    if c == '&' {
      assert StartsWith(e, "&amp;");
    } else if c == '<' {
      assert !StartsWith(e, "&amp;") by { assert e[1] == 'l'; assert |e| >= 5 ==> e[..5][1] == e[1]; }
      assert StartsWith(e, "&lt;");
    } else if c == '>' {
      assert !StartsWith(e, "&amp;") by { assert e[1] == 'g'; assert |e| >= 5 ==> e[..5][1] == e[1]; }
      assert !StartsWith(e, "&lt;") by { assert e[1] == 'g'; assert |e| >= 4 ==> e[..4][1] == e[1]; }
      assert StartsWith(e, "&gt;");
    } else if c == '"' {
      assert !StartsWith(e, "&amp;") by { assert e[1] == 'q'; assert |e| >= 5 ==> e[..5][1] == e[1]; }
      assert !StartsWith(e, "&lt;") by { assert e[1] == 'q'; assert |e| >= 4 ==> e[..4][1] == e[1]; }
      assert !StartsWith(e, "&gt;") by { assert e[1] == 'q'; assert |e| >= 4 ==> e[..4][1] == e[1]; }
      assert StartsWith(e, "&quot;");
    } else if c == '\'' {
      assert !StartsWith(e, "&amp;") by { assert e[1] == '#'; assert |e| >= 5 ==> e[..5][1] == e[1]; }
      assert !StartsWith(e, "&lt;") by { assert e[1] == '#'; assert |e| >= 4 ==> e[..4][1] == e[1]; }
      assert !StartsWith(e, "&gt;") by { assert e[1] == '#'; assert |e| >= 4 ==> e[..4][1] == e[1]; }
      assert !StartsWith(e, "&quot;") by { assert e[1] == '#'; assert |e| >= 6 ==> e[..6][1] == e[1]; }
      assert StartsWith(e, "&#39;");
    } else if c == '\n' {
      assert e[0] == '<';
      if StartsWith(e, "&amp;") { StartsWithHead(e, "&amp;"); }
      if StartsWith(e, "&lt;") { StartsWithHead(e, "&lt;"); }
      if StartsWith(e, "&gt;") { StartsWithHead(e, "&gt;"); }
      if StartsWith(e, "&quot;") { StartsWithHead(e, "&quot;"); }
      if StartsWith(e, "&#39;") { StartsWithHead(e, "&#39;"); }
      assert StartsWith(e, "<br>");
    } else {
      assert e[0] == c;
      if StartsWith(e, "&amp;") { StartsWithHead(e, "&amp;"); }
      if StartsWith(e, "&lt;") { StartsWithHead(e, "&lt;"); }
      if StartsWith(e, "&gt;") { StartsWithHead(e, "&gt;"); }
      if StartsWith(e, "&quot;") { StartsWithHead(e, "&quot;"); }
      if StartsWith(e, "&#39;") { StartsWithHead(e, "&#39;"); }
      if StartsWith(e, "<br>") { StartsWithHead(e, "<br>"); }
    }
  }

  /** Decoding gives the input back: escaping loses nothing and, as every
      entity it writes is decoded once, nothing it writes is escaped twice. */
  lemma {:induction false} UnescapeEsc(s: string)
    ensures Unescape(Esc(Some(s))) == s
    decreases |s|
  {
    if s != [] {
      UnescapeEsc(s[1..]);
      UnescapeStep(s[0], EscapeMap(s[1..]));
    }
  }

  /** Every `<` and every `>` of `r` belongs to a `<br>`. */
  predicate OnlyBreakTags(r: string)
  {
    && (forall i :: 0 <= i < |r| && r[i] == '<' ==> OccursAt(r, "<br>", i))
    && (forall i :: 0 <= i < |r| && r[i] == '>' ==> OccursAt(r, "<br>", i - 3))
  }

  lemma OnlyBreakTagsAppend(a: string, b: string)
    requires OnlyBreakTags(a) && OnlyBreakTags(b)
    ensures OnlyBreakTags(a + b)
  {
    var r := a + b;
    forall i | 0 <= i < |r| && r[i] == '<' ensures OccursAt(r, "<br>", i) {
      if i < |a| {
        assert r[i..i + 4] == a[i..i + 4];
      } else {
        assert r[i] == b[i - |a|];
        assert r[i..i + 4] == b[i - |a|..i - |a| + 4];
      }
    }
    forall i | 0 <= i < |r| && r[i] == '>' ensures OccursAt(r, "<br>", i - 3) {
      if i < |a| {
        assert r[i - 3..i + 1] == a[i - 3..i + 1];
      } else {
        assert r[i] == b[i - |a|];
        assert r[i - 3..i + 1] == b[i - |a| - 3..i - |a| + 1];
      }
    }
  }

  lemma OnlyBreakTagsChar(c: char)
    ensures OnlyBreakTags(EscapeChar(c))
  {
    if c == '\n' {
      BreakTagOnly();
    } else {
      assert '<' !in EscapeChar(c) && '>' !in EscapeChar(c);
      NoAnglesOnlyBreakTags(EscapeChar(c));
    }
  }

  lemma BreakTagOnly()
    ensures OnlyBreakTags("<br>")
  {
    var r := "<br>";
    assert r[0..4] == "<br>";
  }

  lemma NoAnglesOnlyBreakTags(r: string)
    requires '<' !in r && '>' !in r
    ensures OnlyBreakTags(r)
  {
  }

  lemma EscapeCharClean(c: char)
    ensures '"' !in EscapeChar(c) && '\'' !in EscapeChar(c) && '\n' !in EscapeChar(c)
    ensures |EscapeChar(c)| >= 1
  {
  }

  lemma {:induction false} EscapeMapSafe(s: string)
    ensures var r := EscapeMap(s);
      '"' !in r && '\'' !in r && '\n' !in r && OnlyBreakTags(r) && |r| >= |s|
    decreases |s|
  {
    if s != [] {
      var e, t := EscapeChar(s[0]), EscapeMap(s[1..]);
      assert EscapeMap(s) == e + t;
      EscapeMapSafe(s[1..]);
      EscapeCharClean(s[0]);
      OnlyBreakTagsChar(s[0]);
      OnlyBreakTagsAppend(e, t);
      assert forall x :: x in e + t ==> x in e || x in t;
    }
  }

  /** The output of `esc` never contains a quote, an apostrophe or a newline;
      a `<` or `>` in it is always part of a `<br>` written for a newline; and
      it is never shorter than the input. */
  lemma EscSafe(t: Option<string>)
    ensures var r := Esc(t);
      && '"' !in r && '\'' !in r && '\n' !in r
      && OnlyBreakTags(r)
      && |r| >= |OrEmpty(t)|
  {
    EscapeMapSafe(OrEmpty(t));
  }
}
