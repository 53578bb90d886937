/** `normalize` of back/ingestion.py: the character map that unifies Arabic
    and Persian letter forms, drops invisible characters and turns Persian
    and Arabic-Indic digits into ASCII ones, followed by the collapsing of
    blank runs and of long newline runs, and `strip()`. */
module Normalization {
  import opened Text

  /** `char_map`, in the dict's (insertion) order: each character and its
      replacement. */
  const CharMap: seq<(char, string)> := [
    ('\U{0643}', "\U{06A9}"), ('\U{064A}', "\U{06CC}"), ('\U{0629}', "\U{0647}"), ('\U{0624}', "\U{0648}"),
    ('\U{0625}', "\U{0627}"), ('\U{0623}', "\U{0627}"), ('\U{0626}', "\U{06CC}"), ('\U{0671}', "\U{0627}"),
    ('\U{200C}', " "), ('\U{200D}', ""), ('\U{200E}', ""), ('\U{200F}', ""),
    ('\U{00AD}', ""), ('\U{FEFF}', ""),
    ('\U{06F0}', "0"), ('\U{06F1}', "1"), ('\U{06F2}', "2"), ('\U{06F3}', "3"), ('\U{06F4}', "4"),
    ('\U{06F5}', "5"), ('\U{06F6}', "6"), ('\U{06F7}', "7"), ('\U{06F8}', "8"), ('\U{06F9}', "9"),
    ('\U{0660}', "0"), ('\U{0661}', "1"), ('\U{0662}', "2"), ('\U{0663}', "3"), ('\U{0664}', "4"),
    ('\U{0665}', "5"), ('\U{0666}', "6"), ('\U{0667}', "7"), ('\U{0668}', "8"), ('\U{0669}', "9")
  ]

  /** The characters a table replaces. */
  function MapKeys(table: seq<(char, string)>): (ks: string)
    ensures |ks| == |table|
    ensures forall j :: 0 <= j < |table| ==> ks[j] == table[j].0
  {
    seq(|table|, j requires 0 <= j < |table| => table[j].0)
  }

  /** A character `normalize` replaces. */
  predicate Mapped(c: char)
  {
    c in MapKeys(CharMap)
  }

  /** No replacement brings back a character the table replaces. */
  ghost predicate ValuesFree(table: seq<(char, string)>)
  {
    forall j, j' :: 0 <= j < |table| && 0 <= j' < |table| ==> table[j].0 !in table[j'].1
  }

  /** The characters the replacements of `CharMap` are made of. */
  const Targets: string := "\U{06A9}\U{06CC}\U{0647}\U{0648}\U{0627} 0123456789"

  lemma CharMapValuesFree()
    ensures ValuesFree(CharMap)
  {
    assert forall j :: 0 <= j < |CharMap| ==> CharMap[j].0 !in Targets;
    assert forall j, x :: 0 <= j < |CharMap| && x in CharMap[j].1 ==> x in Targets;
  }

  /** `for k, v in table: text = text.replace(k, v)`. */
  function ApplyCharMap(s: string, table: seq<(char, string)>): string
  {
    if table == [] then s
    else
      var last := table[|table| - 1];
      ReplaceAll(ApplyCharMap(s, table[..|table| - 1]), [last.0], last.1)
  }

  /** Every character left after the replacements was in the text and is
      replaced by no entry, or comes from some replacement. */
  lemma {:induction false} ApplyCharMapChars(s: string, table: seq<(char, string)>)
    ensures forall k :: 0 <= k < |ApplyCharMap(s, table)| ==>
      var x := ApplyCharMap(s, table)[k];
      (x in s && x !in MapKeys(table)) || exists j :: 0 <= j < |table| && x in table[j].1
    decreases |table|
  {
    if table != [] {
      var n := |table| - 1;
      var init := table[..n];
      var prev := ApplyCharMap(s, init);
      ApplyCharMapChars(s, init);
      ReplaceCharChars(prev, table[n].0, table[n].1);
      assert MapKeys(table) == MapKeys(init) + [table[n].0];
      forall k | 0 <= k < |ApplyCharMap(s, table)|
        ensures var x := ApplyCharMap(s, table)[k];
          (x in s && x !in MapKeys(table)) || exists j :: 0 <= j < |table| && x in table[j].1
      {
        var x := ApplyCharMap(s, table)[k];
        if x in prev && x != table[n].0 {
          var i :| 0 <= i < |prev| && prev[i] == x;
          if !(x in s && x !in MapKeys(init)) {
            var j :| 0 <= j < |init| && x in init[j].1;
            assert x in table[j].1;
          }
        } else {
          assert x in table[n].1;
        }
      }
    }
  }

  /** After the whole table no replaced character is left, when no
      replacement brings one back. */
  lemma ApplyCharMapClean(s: string, table: seq<(char, string)>)
    requires ValuesFree(table)
    ensures forall k :: 0 <= k < |ApplyCharMap(s, table)| ==> ApplyCharMap(s, table)[k] !in MapKeys(table)
  {
    ApplyCharMapChars(s, table);
    forall k | 0 <= k < |ApplyCharMap(s, table)| ensures ApplyCharMap(s, table)[k] !in MapKeys(table) {
      var x := ApplyCharMap(s, table)[k];
      if exists j :: 0 <= j < |table| && x in table[j].1 {
        var j :| 0 <= j < |table| && x in table[j].1;
        forall i | 0 <= i < |table| ensures MapKeys(table)[i] != x {
          assert table[i].0 !in table[j].1;
        }
      }
    }
  }

  // ------------------------------------------------------------ blanks

  /** The class `[ \t]`. */
  predicate IsBlank(c: char)
  {
    c == ' ' || c == '\t'
  }

  function BlankRunEnd(s: string, i: nat): (j: nat)
    requires i <= |s|
    ensures i <= j <= |s|
    ensures j < |s| ==> !IsBlank(s[j])
    ensures i < |s| && IsBlank(s[i]) ==> j > i
    decreases |s| - i
  {
    if i < |s| && IsBlank(s[i]) then BlankRunEnd(s, i + 1) else i
  }

  /** `re.sub(r'[ \t]+', ' ', s)`. */
  function CollapseBlanks(s: string): string
    decreases |s|
  {
    if s == [] then ""
    else if IsBlank(s[0]) then " " + CollapseBlanks(s[BlankRunEnd(s, 0)..])
    else [s[0]] + CollapseBlanks(s[1..])
  }

  /** No tab and no two spaces in a row. */
  predicate BlanksClean(r: string)
  {
    && (forall k :: 0 <= k < |r| ==> r[k] != '\t')
    && (forall k :: 0 <= k < |r| - 1 ==> !(r[k] == ' ' && r[k + 1] == ' '))
  }

  lemma {:induction false} CollapseBlanksClean(s: string)
    ensures BlanksClean(CollapseBlanks(s))
    ensures CollapseBlanks(s) != [] && CollapseBlanks(s)[0] == ' ' ==> s != [] && IsBlank(s[0])
    ensures forall k :: 0 <= k < |CollapseBlanks(s)| ==> CollapseBlanks(s)[k] in s || CollapseBlanks(s)[k] == ' '
    decreases |s|
  {
    if s != [] {
      var j := if IsBlank(s[0]) then BlankRunEnd(s, 0) else 1;
      CollapseBlanksClean(s[j..]);
      forall x | x in s[j..] ensures x in s { }
    }
  }

  // ---------------------------------------------------------- newlines

  function NewlineRunEnd(s: string, i: nat): (j: nat)
    requires i <= |s|
    ensures i <= j <= |s|
    ensures forall k :: i <= k < j ==> s[k] == '\n'
    ensures j < |s| ==> s[j] != '\n'
    decreases |s| - i
  {
    if i < |s| && s[i] == '\n' then NewlineRunEnd(s, i + 1) else i
  }

  /** `re.sub(r'\n{3,}', '\n\n', s)`: a run of three or more newlines
      becomes two, shorter runs stay. */
  function CollapseNewlines(s: string): string
    decreases |s|
  {
    if s == [] then ""
    else if s[0] == '\n' then
      var j := NewlineRunEnd(s, 0);
      (if j >= 3 then "\n\n" else s[..j]) + CollapseNewlines(s[j..])
    else [s[0]] + CollapseNewlines(s[1..])
  }

  /** Never three newlines in a row. */
  predicate NewlinesClean(r: string)
  {
    forall k :: 0 <= k < |r| - 2 ==> !(r[k] == '\n' && r[k + 1] == '\n' && r[k + 2] == '\n')
  }

  /** The newline collapse leaves no run of three newlines, keeps the first
      character, brings in no character but a newline, and never makes two
      blanks adjacent. */
  lemma {:induction false} CollapseNewlinesClean(s: string)
    ensures NewlinesClean(CollapseNewlines(s))
    ensures s != [] ==> CollapseNewlines(s) != [] && CollapseNewlines(s)[0] == s[0]
    ensures forall k :: 0 <= k < |CollapseNewlines(s)| ==> CollapseNewlines(s)[k] in s || CollapseNewlines(s)[k] == '\n'
    ensures BlanksClean(s) ==> BlanksClean(CollapseNewlines(s))
    decreases |s|
  {
    if s != [] {
      var r := CollapseNewlines(s);
      if s[0] == '\n' {
        var j := NewlineRunEnd(s, 0);
        var block := if j >= 3 then "\n\n" else s[..j];
        var rest := CollapseNewlines(s[j..]);
        CollapseNewlinesClean(s[j..]);
        assert r == block + rest;
        assert |block| <= 2 && forall k :: 0 <= k < |block| ==> block[k] == '\n';
        assert rest != [] ==> rest[0] != '\n';
        forall x | x in s[j..] ensures x in s { }
        if BlanksClean(s) {
          assert BlanksClean(s[j..]) by {
            forall k | 0 <= k < |s[j..]| - 1 ensures !(s[j..][k] == ' ' && s[j..][k + 1] == ' ') {
              assert s[j..][k] == s[j + k] && s[j..][k + 1] == s[j + k + 1];
            }
          }
        }
      } else {
        var rest := CollapseNewlines(s[1..]);
        CollapseNewlinesClean(s[1..]);
        assert r == [s[0]] + rest;
        forall x | x in s[1..] ensures x in s { }
        if BlanksClean(s) {
          assert BlanksClean(s[1..]) by {
            forall k | 0 <= k < |s[1..]| - 1 ensures !(s[1..][k] == ' ' && s[1..][k + 1] == ' ') {
              assert s[1..][k] == s[k + 1] && s[1..][k + 1] == s[k + 2];
            }
          }
        }
      }
    }
  }

  // --------------------------------------------------------- normalize

  /** What `normalize` returns. */
  function Normalized(text: string): string
  {
    if text == [] then "" else Strip(CollapseNewlines(CollapseBlanks(ApplyCharMap(text, CharMap))))
  }

  /** The text `normalize` returns is clean: no character the map replaces,
      no tab, no two spaces in a row, no three newlines in a row, and no
      white space at either end. */
  ghost predicate NormalForm(r: string)
  {
    && (forall k :: 0 <= k < |r| ==> !Mapped(r[k]))
    && BlanksClean(r)
    && NewlinesClean(r)
    && (r != [] ==> !IsSpace(r[0]) && !IsSpace(r[|r| - 1]))
  }

  lemma NormalizedForm(text: string)
    ensures NormalForm(Normalized(text))
  {
    if text != [] {
      var a := ApplyCharMap(text, CharMap);
      var b := CollapseBlanks(a);
      var c := CollapseNewlines(b);
      CharMapValuesFree();
      ApplyCharMapClean(text, CharMap);
      CollapseBlanksClean(a);
      CollapseNewlinesClean(b);
      CollapsedUnmapped(a, b, c);
      StripForm(c);
    }
  }

  /** The two collapses bring in only a space and a newline, which the table
      does not replace. */
  lemma CollapsedUnmapped(a: string, b: string, c: string)
    requires forall k :: 0 <= k < |a| ==> !Mapped(a[k])
    requires forall k :: 0 <= k < |b| ==> b[k] in a || b[k] == ' '
    requires forall k :: 0 <= k < |c| ==> c[k] in b || c[k] == '\n'
    ensures forall k :: 0 <= k < |c| ==> !Mapped(c[k])
  {
    assert !Mapped(' ') && !Mapped('\n');
    forall k | 0 <= k < |c| ensures !Mapped(c[k]) {
      if c[k] != '\n' {
        var i :| 0 <= i < |b| && b[i] == c[k];
        if b[i] != ' ' {
          var j :| 0 <= j < |a| && a[j] == b[i];
        }
      }
    }
  }

  /** `strip()` of clean text is in normal form. */
  lemma StripForm(c: string)
    requires forall k :: 0 <= k < |c| ==> !Mapped(c[k])
    requires BlanksClean(c) && NewlinesClean(c)
    ensures NormalForm(Strip(c))
  {
    var lo, hi := StripStart(c), StripEnd(c);
    var r := Strip(c);
    assert r == c[lo..hi];
    assert forall k :: 0 <= k < |r| ==> r[k] == c[lo + k];
  }

  /** `normalize`: the empty text gives "", anything else goes through the
      table, the blank collapse, the newline collapse and `strip()`. */
  method Normalize(text: string) returns (r: string)
    ensures r == Normalized(text)
    ensures text == [] ==> r == []
    ensures NormalForm(r)
  {
    if text == [] {
      return "";
    }
    r := text;
    var i := 0;
    while i < |CharMap|
      invariant 0 <= i <= |CharMap|
      invariant r == ApplyCharMap(text, CharMap[..i])
    {
      assert CharMap[..i + 1][..i] == CharMap[..i];
      r := ReplaceAll(r, [CharMap[i].0], CharMap[i].1);
      i := i + 1;
    }
    assert CharMap[..i] == CharMap;
    r := CollapseBlanks(r);
    r := CollapseNewlines(r);
    r := Strip(r);
    NormalizedForm(text);
  }
}
