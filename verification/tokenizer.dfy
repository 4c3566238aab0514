/** Util::split and Util::splitLineWhitespace, the two tokenisers every
loader in the library runs its lines through.

Both are written as the character loops of the C++ code: a recursion over
the remaining input carrying the field read so far (`current`) and, for the
whitespace splitter, the `lastWasWhiteSpace` flag.
 */
module Tokenizer {

  // ---------------------------------------------------------------------
  // Util::split

  /** Util::split on the rest `s` of the input, `current` being the field
      read so far: a delimiter ends the field (even an empty one), and the
      field left at the end is emitted only when it is non-empty. */
  function SplitFrom(s: string, delim: char, current: string): seq<string>
    decreases |s|
  {
    if |s| == 0 then (if |current| > 0 then [current] else [])
    else if s[0] == delim then [current] + SplitFrom(s[1..], delim, "")
    else SplitFrom(s[1..], delim, current + [s[0]])
  }

  function Split(s: string, delim: char): seq<string>
  {
    SplitFrom(s, delim, "")
  }

  /** The tokens glued back together, one delimiter between neighbours. */
  function Join(tokens: seq<string>, delim: char): string
  {
    if |tokens| == 0 then ""
    else if |tokens| == 1 then tokens[0]
    else tokens[0] + [delim] + Join(tokens[1..], delim)
  }

  /** `s` without its last character when that character is `delim`. */
  function DropTrailing(s: string, delim: char): string
  {
    if |s| > 0 && s[|s| - 1] == delim then s[..|s| - 1] else s
  }

  /** Whether the input's last field is not closed by a delimiter. */
  predicate EndsOpen(s: string, delim: char)
  {
    |s| > 0 && s[|s| - 1] != delim
  }

  /** The number of fields Util::split reports: one per delimiter, plus one
      for a final field that does not end in a delimiter. */
  function FieldCount(s: string, delim: char): nat
  {
    multiset(s)[delim] + (if EndsOpen(s, delim) then 1 else 0)
  }

  lemma {:induction false} SplitFromNoDelim(s: string, delim: char, current: string)
    requires delim !in current
    ensures forall t :: t in SplitFrom(s, delim, current) ==> delim !in t
    decreases |s|
  {
    if |s| > 0 {
      if s[0] == delim {
        SplitFromNoDelim(s[1..], delim, "");
      } else {
        SplitFromNoDelim(s[1..], delim, current + [s[0]]);
      }
    }
  }

  lemma {:induction false} SplitFromNonEmpty(s: string, delim: char, current: string)
    requires |current + s| > 0
    ensures |SplitFrom(s, delim, current)| > 0
    decreases |s|
  {
    if |s| > 0 && s[0] != delim {
      SplitFromNonEmpty(s[1..], delim, current + [s[0]]);
    }
  }

  lemma {:induction false} SplitFromCount(s: string, delim: char, current: string)
    ensures |SplitFrom(s, delim, current)| ==
            multiset(s)[delim] + (if EndsOpen(s, delim) || (|s| == 0 && |current| > 0) then 1 else 0)
    decreases |s|
  {
    if |s| > 0 {
      assert s == [s[0]] + s[1..];
      assert multiset(s) == multiset{s[0]} + multiset(s[1..]);
      if |s[1..]| > 0 {
        assert s[|s| - 1] == s[1..][|s[1..]| - 1];
      }
      if s[0] == delim {
        SplitFromCount(s[1..], delim, "");
      } else {
        SplitFromCount(s[1..], delim, current + [s[0]]);
      }
    }
  }

  lemma DropTrailingCons(s: string, delim: char)
    requires |s| > 1
    ensures DropTrailing(s, delim) == [s[0]] + DropTrailing(s[1..], delim)
  {
    assert s[|s| - 1] == s[1..][|s[1..]| - 1];
    if s[|s| - 1] == delim {
      assert s[..|s| - 1] == [s[0]] + s[1..][..|s[1..]| - 1];
    } else {
      assert s == [s[0]] + s[1..];
    }
  }

  lemma JoinCons(t: string, rest: seq<string>, delim: char)
    requires |rest| > 0
    ensures Join([t] + rest, delim) == t + [delim] + Join(rest, delim)
  {
    assert ([t] + rest)[1..] == rest;
  }

  lemma {:induction false} SplitFromJoin(s: string, delim: char, current: string)
    ensures Join(SplitFrom(s, delim, current), delim) == current + DropTrailing(s, delim)
    decreases |s|, 1
  {
    if |s| == 0 {
      assert current + "" == current;
    } else if s[0] == delim {
      SplitFromJoinAtDelim(s, delim, current);
    } else {
      SplitFromJoinInField(s, delim, current);
    }
  }

  /** A delimiter closes `current`, which becomes a token of its own. */
  lemma {:induction false} SplitFromJoinAtDelim(s: string, delim: char, current: string)
    requires |s| > 0 && s[0] == delim
    ensures Join(SplitFrom(s, delim, current), delim) == current + DropTrailing(s, delim)
    decreases |s|, 0
  {
    var rest := SplitFrom(s[1..], delim, "");
    assert SplitFrom(s, delim, current) == [current] + rest;
    SplitFromJoin(s[1..], delim, "");
    assert "" + DropTrailing(s[1..], delim) == DropTrailing(s[1..], delim);
    if |s| > 1 {
      DropTrailingCons(s, delim);
      SplitFromNonEmpty(s[1..], delim, "");
      JoinCons(current, rest, delim);
      assert current + [delim] + DropTrailing(s[1..], delim) ==
             current + ([delim] + DropTrailing(s[1..], delim));
    } else {
      assert s[..|s| - 1] == "";
      assert rest == [];
      assert current + "" == current;
    }
  }

  /** Any other character extends `current`. */
  lemma {:induction false} SplitFromJoinInField(s: string, delim: char, current: string)
    requires |s| > 0 && s[0] != delim
    ensures Join(SplitFrom(s, delim, current), delim) == current + DropTrailing(s, delim)
    decreases |s|, 0
  {
    assert SplitFrom(s, delim, current) == SplitFrom(s[1..], delim, current + [s[0]]);
    SplitFromJoin(s[1..], delim, current + [s[0]]);
    if |s| > 1 {
      DropTrailingCons(s, delim);
      assert current + [s[0]] + DropTrailing(s[1..], delim) ==
             current + ([s[0]] + DropTrailing(s[1..], delim));
    } else {
      assert DropTrailing(s, delim) == s == [s[0]];
      assert DropTrailing(s[1..], delim) == "";
      assert current + [s[0]] + "" == current + s;
    }
  }

  /** Shape of Util::split: no token holds the delimiter, there is one token
      per delimiter plus one for a final non-empty field, and gluing the
      tokens back gives the input minus a trailing delimiter. */
  lemma SplitShape(s: string, delim: char)
    ensures forall t :: t in Split(s, delim) ==> delim !in t
    ensures |Split(s, delim)| == FieldCount(s, delim)
    ensures Join(Split(s, delim), delim) == DropTrailing(s, delim)
  {
    SplitFromNoDelim(s, delim, "");
    SplitFromCount(s, delim, "");
    SplitFromJoin(s, delim, "");
    assert "" + DropTrailing(s, delim) == DropTrailing(s, delim);
  }

  /** Round trip one way: an input that does not end with the delimiter is
      rebuilt exactly from its tokens. */
  lemma SplitJoinRoundTrip(s: string, delim: char)
    requires |s| == 0 || s[|s| - 1] != delim
    ensures Join(Split(s, delim), delim) == s
  {
    SplitShape(s, delim);
  }

  lemma {:induction false} SplitFromWithoutDelim(t: string, delim: char, current: string)
    requires delim !in t
    ensures SplitFrom(t, delim, current) == if |current + t| > 0 then [current + t] else []
    decreases |t|
  {
    if |t| > 0 {
      SplitFromWithoutDelim(t[1..], delim, current + [t[0]]);
      assert current + [t[0]] + t[1..] == current + t;
    } else {
      assert current + t == current;
    }
  }

  lemma {:induction false} SplitFromThroughDelim(t: string, rest: string, delim: char, current: string)
    requires delim !in t
    ensures SplitFrom(t + [delim] + rest, delim, current) == [current + t] + SplitFrom(rest, delim, "")
    decreases |t|
  {
    if |t| == 0 {
      assert t + [delim] + rest == [delim] + rest;
      assert ([delim] + rest)[1..] == rest;
      assert current + t == current;
    } else {
      assert (t + [delim] + rest)[1..] == t[1..] + [delim] + rest;
      SplitFromThroughDelim(t[1..], rest, delim, current + [t[0]]);
      assert current + [t[0]] + t[1..] == current + t;
    }
  }

  /** Round trip the other way: tokens free of the delimiter whose last one
      is non-empty are recovered by splitting their join. */
  lemma {:induction false} JoinSplitRoundTrip(tokens: seq<string>, delim: char)
    requires forall t :: t in tokens ==> delim !in t
    requires |tokens| == 0 || |tokens[|tokens| - 1]| > 0
    ensures Split(Join(tokens, delim), delim) == tokens
    decreases |tokens|
  {
    if |tokens| == 1 {
      SplitFromWithoutDelim(tokens[0], delim, "");
      assert "" + tokens[0] == tokens[0];
    } else if |tokens| > 1 {
      assert tokens[1..][|tokens[1..]| - 1] == tokens[|tokens| - 1];
      JoinSplitRoundTrip(tokens[1..], delim);
      SplitFromThroughDelim(tokens[0], Join(tokens[1..], delim), delim, "");
      assert "" + tokens[0] == tokens[0];
      assert [tokens[0]] + tokens[1..] == tokens;
    }
  }

  /** Consecutive delimiters give an empty token; a trailing one gives none. */
  lemma SplitExamples()
    ensures Split("a//b", '/') == ["a", "", "b"]
    ensures Split("5//", '/') == ["5", ""]
    ensures Split("7/3", '/') == ["7", "3"]
  {
    assert "a//b" == ['a'] + "//b" && "" + ['a'] == "a";
    assert SplitFrom("a//b", '/', "") == SplitFrom("//b", '/', "a");
    assert SplitFrom("//b", '/', "a") == ["a"] + SplitFrom("/b", '/', "");
    assert SplitFrom("/b", '/', "") == [""] + SplitFrom("b", '/', "");
    assert "b" == ['b'] + "" && "" + ['b'] == "b";
    assert SplitFrom("b", '/', "") == SplitFrom("", '/', "b");
    assert "5//" == ['5'] + "//" && "" + ['5'] == "5";
    assert SplitFrom("5//", '/', "") == SplitFrom("//", '/', "5");
    assert SplitFrom("//", '/', "5") == ["5"] + SplitFrom("/", '/', "");
    assert SplitFrom("/", '/', "") == [""] + SplitFrom("", '/', "");
    assert "7/3" == ['7'] + "/3" && "" + ['7'] == "7";
    assert SplitFrom("7/3", '/', "") == SplitFrom("/3", '/', "7");
    assert SplitFrom("/3", '/', "7") == ["7"] + SplitFrom("3", '/', "");
    assert "3" == ['3'] + "" && "" + ['3'] == "3";
    assert SplitFrom("3", '/', "") == SplitFrom("", '/', "3");
  }

  // ---------------------------------------------------------------------
  // Util::splitLineWhitespace

  /** Characters the whitespace splitter drops without ending a token. */
  predicate IsLineBreak(c: char)
  {
    c == '\n' || c == '\r'
  }

  /** Characters that never end up in a token. A tab is not one of them. */
  predicate IsSeparator(c: char)
  {
    c == ' ' || IsLineBreak(c)
  }

  predicate NoSeparator(t: string)
  {
    forall k :: 0 <= k < |t| ==> !IsSeparator(t[k])
  }

  /** Util::splitLineWhitespace on the rest `s` of the line: CR and LF are
      skipped, the first space of a run ends the current token (even when
      it is empty, which happens only at the start of the line), further
      spaces of the run are ignored, and the last token is kept only when
      it is non-empty. */
  function WhitespaceFrom(s: string, current: string, lastWasSpace: bool): seq<string>
    decreases |s|
  {
    if |s| == 0 then (if |current| > 0 then [current] else [])
    else if IsLineBreak(s[0]) then WhitespaceFrom(s[1..], current, lastWasSpace)
    else if s[0] == ' ' then
      if !lastWasSpace then [current] + WhitespaceFrom(s[1..], "", true)
      else WhitespaceFrom(s[1..], current, true)
    else WhitespaceFrom(s[1..], current + [s[0]], false)
  }

  function SplitLineWhitespace(line: string): seq<string>
  {
    WhitespaceFrom(line, "", false)
  }

  /** The line with its CR and LF characters removed. */
  function RemoveLineBreaks(s: string): (r: string)
    ensures forall k :: 0 <= k < |r| ==> !IsLineBreak(r[k])
  {
    if |s| == 0 then ""
    else if IsLineBreak(s[0]) then RemoveLineBreaks(s[1..])
    else [s[0]] + RemoveLineBreaks(s[1..])
  }

  /** The line with its spaces, CR and LF characters removed. */
  function RemoveSeparators(s: string): string
  {
    if |s| == 0 then ""
    else if IsSeparator(s[0]) then RemoveSeparators(s[1..])
    else [s[0]] + RemoveSeparators(s[1..])
  }

  function Concat(tokens: seq<string>): string
  {
    if |tokens| == 0 then "" else tokens[0] + Concat(tokens[1..])
  }

  lemma {:induction false} WhitespaceFromShape(s: string, current: string, lastWasSpace: bool)
    requires lastWasSpace ==> current == ""
    requires NoSeparator(current)
    ensures forall t :: t in WhitespaceFrom(s, current, lastWasSpace) ==> NoSeparator(t)
    ensures Concat(WhitespaceFrom(s, current, lastWasSpace)) == current + RemoveSeparators(s)
    ensures forall i :: 1 <= i < |WhitespaceFrom(s, current, lastWasSpace)| ==>
              |WhitespaceFrom(s, current, lastWasSpace)[i]| > 0
    ensures lastWasSpace || |current| > 0 ==>
              forall i :: 0 <= i < |WhitespaceFrom(s, current, lastWasSpace)| ==>
                |WhitespaceFrom(s, current, lastWasSpace)[i]| > 0
    ensures |current| > 0 ==> |WhitespaceFrom(s, current, lastWasSpace)| > 0
    decreases |s|
  {
    var r := WhitespaceFrom(s, current, lastWasSpace);
    if |s| == 0 {
      assert current + "" == current;
      if |current| > 0 {
        assert Concat(r) == current + Concat([]);
      }
    } else if IsLineBreak(s[0]) {
      WhitespaceFromShape(s[1..], current, lastWasSpace);
    } else if s[0] == ' ' {
      if !lastWasSpace {
        var rest := WhitespaceFrom(s[1..], "", true);
        WhitespaceFromShape(s[1..], "", true);
        assert r[1..] == rest;
        assert Concat(r) == current + Concat(rest);
        assert "" + RemoveSeparators(s[1..]) == RemoveSeparators(s[1..]);
      } else {
        WhitespaceFromShape(s[1..], current, true);
      }
    } else {
      var c := current + [s[0]];
      assert NoSeparator(c) by {
        forall k | 0 <= k < |c|
          ensures !IsSeparator(c[k])
        {
          if k < |current| { assert c[k] == current[k]; }
        }
      }
      WhitespaceFromShape(s[1..], c, false);
      assert c + RemoveSeparators(s[1..]) == current + ([s[0]] + RemoveSeparators(s[1..]));
    }
  }

  /** CR and LF are invisible to the whitespace splitter. */
  lemma {:induction false} LineBreaksIgnored(s: string, current: string, lastWasSpace: bool)
    ensures WhitespaceFrom(s, current, lastWasSpace) ==
            WhitespaceFrom(RemoveLineBreaks(s), current, lastWasSpace)
    decreases |s|
  {
    if |s| > 0 {
      LineBreaksIgnored(s[1..], if s[0] == ' ' then "" else if IsLineBreak(s[0]) then current else current + [s[0]],
                        if IsLineBreak(s[0]) then lastWasSpace else s[0] == ' ');
      LineBreaksIgnored(s[1..], current, lastWasSpace);
      LineBreaksIgnored(s[1..], current, true);
      if !IsLineBreak(s[0]) {
        var t := [s[0]] + RemoveLineBreaks(s[1..]);
        assert t[0] == s[0] && t[1..] == RemoveLineBreaks(s[1..]);
      }
    }
  }

  /** Shape of Util::splitLineWhitespace: tokens hold no space, CR or LF;
      together they spell the line with those characters removed; every
      token but the first is non-empty; and the first is empty exactly when
      the line, CR and LF aside, starts with a space. */
  lemma SplitLineWhitespaceShape(line: string)
    ensures forall t :: t in SplitLineWhitespace(line) ==> NoSeparator(t)
    ensures Concat(SplitLineWhitespace(line)) == RemoveSeparators(line)
    ensures forall i :: 1 <= i < |SplitLineWhitespace(line)| ==> |SplitLineWhitespace(line)[i]| > 0
    ensures (|SplitLineWhitespace(line)| > 0 && SplitLineWhitespace(line)[0] == "") <==>
            (|RemoveLineBreaks(line)| > 0 && RemoveLineBreaks(line)[0] == ' ')
  {
    WhitespaceFromShape(line, "", false);
    assert "" + RemoveSeparators(line) == RemoveSeparators(line);
    LineBreaksIgnored(line, "", false);
    var t := RemoveLineBreaks(line);
    if |t| > 0 && t[0] != ' ' {
      assert !IsSeparator(t[0]);
      assert "" + [t[0]] == [t[0]];
      WhitespaceFromShape(t[1..], [t[0]], false);
      assert NoSeparator([t[0]]);
    }
  }

  /** Runs of spaces collapse and CR/LF vanish. */
  lemma SplitLineWhitespaceCollapses()
    ensures SplitLineWhitespace("f  1 2\r") == ["f", "1", "2"]
  {
    assert "f  1 2\r" == ['f'] + "  1 2\r" && "" + ['f'] == "f";
    assert WhitespaceFrom("f  1 2\r", "", false) == WhitespaceFrom("  1 2\r", "f", false);
    assert WhitespaceFrom("  1 2\r", "f", false) == ["f"] + WhitespaceFrom(" 1 2\r", "", true);
    assert WhitespaceFrom(" 1 2\r", "", true) == WhitespaceFrom("1 2\r", "", true);
    assert "1 2\r" == ['1'] + " 2\r" && "" + ['1'] == "1";
    assert WhitespaceFrom("1 2\r", "", true) == WhitespaceFrom(" 2\r", "1", false);
    assert WhitespaceFrom(" 2\r", "1", false) == ["1"] + WhitespaceFrom("2\r", "", true);
    assert "2\r" == ['2'] + "\r" && "" + ['2'] == "2";
    assert WhitespaceFrom("2\r", "", true) == WhitespaceFrom("\r", "2", false);
    assert WhitespaceFrom("\r", "2", false) == WhitespaceFrom("", "2", false);
  }

  /** A leading space yields an empty first token. */
  lemma SplitLineWhitespaceLeadingSpace()
    ensures SplitLineWhitespace(" v") == ["", "v"]
  {
    assert WhitespaceFrom(" v", "", false) == [""] + WhitespaceFrom("v", "", true);
    assert "v" == ['v'] + "" && "" + ['v'] == "v";
    assert WhitespaceFrom("v", "", true) == WhitespaceFrom("", "v", false);
  }

  /** A word without separators is read into the current token whole. */
  lemma {:induction false} WordFrom(w: string, rest: string, current: string, lastWasSpace: bool)
    requires |w| > 0 && NoSeparator(w)
    ensures WhitespaceFrom(w + rest, current, lastWasSpace) == WhitespaceFrom(rest, current + w, false)
    decreases |w|
  {
    assert (w + rest)[0] == w[0] && (w + rest)[1..] == w[1..] + rest;
    if |w| == 1 {
      assert w[1..] + rest == rest && current + [w[0]] == current + w;
    } else {
      WordFrom(w[1..], rest, current + [w[0]], false);
      assert current + [w[0]] + w[1..] == current + w;
    }
  }

  /** Two words joined by one space split back into the two words. */
  lemma SplitTwoWords(a: string, b: string)
    requires |a| > 0 && NoSeparator(a) && |b| > 0 && NoSeparator(b)
    ensures SplitLineWhitespace(a + " " + b) == [a, b]
  {
    assert a + " " + b == a + (" " + b);
    WordFrom(a, " " + b, "", false);
    assert "" + a == a;
    assert (" " + b)[1..] == b;
    assert b + "" == b;
    WordFrom(b, "", "", true);
    assert "" + b == b;
  }

  /** A tab is not a separator: it stays inside its token. */
  lemma SplitLineWhitespaceKeepsTabs()
    ensures SplitLineWhitespace("a\tb") == ["a\tb"]
  {
    assert "a\tb" == ['a'] + "\tb" && "" + ['a'] == "a";
    assert WhitespaceFrom("a\tb", "", false) == WhitespaceFrom("\tb", "a", false);
    assert "\tb" == ['\t'] + "b" && "a" + ['\t'] == "a\t";
    assert WhitespaceFrom("\tb", "a", false) == WhitespaceFrom("b", "a\t", false);
    assert "b" == ['b'] + "" && "a\t" + ['b'] == "a\tb";
    assert WhitespaceFrom("b", "a\t", false) == WhitespaceFrom("", "a\tb", false);
  }
}
