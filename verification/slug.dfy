/** `generateValue` (configController): the snake_case value derived from a
    room-type or amenity label. The label goes through five steps: lower-casing,
    accent stripping, deletion of every character other than a-z, 0-9 and
    whitespace, replacement of each whitespace run by one underscore, and trim.
    The model covers ASCII labels, on which accent stripping changes nothing. */
module Slug {
  import opened Queries

  predicate IsAscii(s: string) {
    forall i :: 0 <= i < |s| ==> s[i] as int < 128
  }

  /** The ASCII members of the regular-expression class `\s`, which are also the
      characters `trim` removes: tab, line feed, vertical tab, form feed,
      carriage return and space. */
  predicate IsSpace(c: char) {
    c == ' ' || 9 <= c as int <= 13
  }

  predicate IsLowerAlnum(c: char) {
    'a' <= c <= 'z' || '0' <= c <= '9'
  }

  /** The characters a generated value may contain. */
  predicate IsSlugChar(c: char) {
    IsLowerAlnum(c) || c == '_'
  }

  function LowerChar(c: char): char {
    if 'A' <= c <= 'Z' then (c as int + 32) as char else c
  }

  /** `toLowerCase`, on ASCII. */
  function ToLower(s: string): (r: string)
    ensures |r| == |s|
    ensures forall i :: 0 <= i < |s| ==> r[i] == LowerChar(s[i])
  {
    seq(|s|, i requires 0 <= i < |s| => LowerChar(s[i]))
  }

  /** The characters `replace(/[^a-z0-9\s]/g, "")` keeps. */
  predicate Kept(c: char) {
    IsLowerAlnum(c) || IsSpace(c)
  }

  /** `replace(/[^a-z0-9\s]/g, "")`. */
  function StripSpecial(s: string): (r: string)
    ensures forall c :: c in r <==> c in s && Kept(c)
  {
    Filter(s, Kept)
  }

  /** Drops the leading whitespace of `s`: the part of `\s+` after its first
      character, and also the start-side half of `trim`. */
  function DropSpaces(s: string): (r: string)
    ensures |r| <= |s| && r == s[|s| - |r|..]
    ensures r == [] || !IsSpace(r[0])
    ensures forall i :: 0 <= i < |s| - |r| ==> IsSpace(s[i])
  {
    if s != [] && IsSpace(s[0]) then DropSpaces(s[1..]) else s
  }

  /** `replace(/\s+/g, "_")`: every maximal whitespace run becomes one `_`. */
  function Underscore(s: string): string
    decreases |s|
  {
    if s == [] then []
    else if IsSpace(s[0]) then "_" + Underscore(DropSpaces(s[1..]))
    else [s[0]] + Underscore(s[1..])
  }

  /** Drops the trailing whitespace of `s`. */
  function DropTrailingSpaces(s: string): (r: string)
    ensures |r| <= |s| && r == s[..|r|]
    ensures r == [] || !IsSpace(r[|r| - 1])
    ensures forall i :: |r| <= i < |s| ==> IsSpace(s[i])
  {
    if s != [] && IsSpace(s[|s| - 1]) then DropTrailingSpaces(s[..|s| - 1]) else s
  }

  /** `trim`. */
  function Trim(s: string): string {
    DropTrailingSpaces(DropSpaces(s))
  }

  /** `generateValue(label)`. */
  function GenerateValue(labelText: string): string
    requires IsAscii(labelText)
  {
    Trim(Underscore(StripSpecial(ToLower(labelText))))
  }

  predicate NoSpace(s: string) {
    forall i :: 0 <= i < |s| ==> !IsSpace(s[i])
  }

  /** No two underscores stand side by side. */
  predicate NoDoubleUnderscore(s: string) {
    forall i :: 0 <= i < |s| - 1 ==> !(s[i] == '_' && s[i + 1] == '_')
  }

  /** Input of `Underscore` in the pipeline: letters, digits and whitespace only. */
  predicate Stripped(s: string) {
    forall i :: 0 <= i < |s| ==> IsLowerAlnum(s[i]) || IsSpace(s[i])
  }

  lemma StripSpecialIsStripped(s: string)
    ensures Stripped(StripSpecial(s))
  {
    var r := StripSpecial(s);
    forall i | 0 <= i < |r| ensures IsLowerAlnum(r[i]) || IsSpace(r[i]) {
      assert r[i] in r;
    }
  }

  /** A string without whitespace passes `trim` unchanged. */
  lemma TrimNoSpace(s: string)
    requires NoSpace(s)
    ensures Trim(s) == s
  {
    if s != [] {
      assert !IsSpace(s[0]) && !IsSpace(s[|s| - 1]);
    }
  }

  /** What `Underscore` makes of a stripped string: slug characters only, an
      empty result only from an empty input, and a leading or trailing `_`
      exactly where the input starts or ends with whitespace. */
  lemma UnderscoreShape(s: string)
    requires Stripped(s)
    ensures forall i :: 0 <= i < |Underscore(s)| ==> IsSlugChar(Underscore(s)[i])
    ensures |Underscore(s)| == 0 <==> |s| == 0
    ensures |s| > 0 ==> (Underscore(s)[0] == '_' <==> IsSpace(s[0]))
    ensures |s| > 0 ==> (Underscore(s)[|Underscore(s)| - 1] == '_' <==> IsSpace(s[|s| - 1]))
  {
    UnderscoreCharset(s);
    UnderscoreEnds(s);
  }

  /** On a stripped string `Underscore` yields slug characters only. */
  lemma {:induction false} UnderscoreCharset(s: string)
    requires Stripped(s)
    ensures forall i :: 0 <= i < |Underscore(s)| ==> IsSlugChar(Underscore(s)[i])
    decreases |s|
  {
    if s != [] {
      var u := Underscore(s);
      if IsSpace(s[0]) {
        var d := DropSpaces(s[1..]);
        UnderscoreCharset(d);
        assert u == "_" + Underscore(d);
      } else {
        UnderscoreCharset(s[1..]);
        assert u == [s[0]] + Underscore(s[1..]);
      }
    }
  }

  /** `Underscore` empties only the empty string, and starts (ends) with `_`
      exactly when its input starts (ends) with whitespace. */
  lemma {:induction false} UnderscoreEnds(s: string)
    requires Stripped(s)
    ensures |Underscore(s)| == 0 <==> |s| == 0
    ensures |s| > 0 ==> (Underscore(s)[0] == '_' <==> IsSpace(s[0]))
    ensures |s| > 0 ==> (Underscore(s)[|Underscore(s)| - 1] == '_' <==> IsSpace(s[|s| - 1]))
    decreases |s|
  {
    if s != [] {
      var u := Underscore(s);
      if IsSpace(s[0]) {
        var d := DropSpaces(s[1..]);
        UnderscoreEnds(d);
        assert u == "_" + Underscore(d);
        if d != [] {
          assert d[|d| - 1] == s[|s| - 1];
        }
      } else {
        UnderscoreEnds(s[1..]);
        assert u == [s[0]] + Underscore(s[1..]);
        assert s[0] != '_';
      }
    }
  }

  /** `Underscore` never puts two underscores side by side. */
  lemma {:induction false} UnderscoreNoDouble(s: string)
    requires Stripped(s)
    ensures NoDoubleUnderscore(Underscore(s))
    decreases |s|
  {
    if s != [] {
      var u := Underscore(s);
      if IsSpace(s[0]) {
        var d := DropSpaces(s[1..]);
        UnderscoreNoDouble(d);
        UnderscoreShape(d);
        assert u == "_" + Underscore(d);
        forall i | 0 <= i < |u| - 1 ensures !(u[i] == '_' && u[i + 1] == '_') {
          if i > 0 {
            assert u[i] == Underscore(d)[i - 1] && u[i + 1] == Underscore(d)[i];
          }
        }
      } else {
        UnderscoreNoDouble(s[1..]);
        UnderscoreShape(s[1..]);
        assert u == [s[0]] + Underscore(s[1..]);
        forall i | 0 <= i < |u| - 1 ensures !(u[i] == '_' && u[i + 1] == '_') {
          if i > 0 {
            assert u[i] == Underscore(s[1..])[i - 1] && u[i + 1] == Underscore(s[1..])[i];
          }
        }
      }
    }
  }

  /** Whitespace removed from a string carries no letters or digits. */
  lemma {:induction false} DropSpacesKeepsAlnum(s: string)
    ensures Filter(DropSpaces(s), IsLowerAlnum) == Filter(s, IsLowerAlnum)
    decreases |s|
  {
    if s != [] && IsSpace(s[0]) {
      DropSpacesKeepsAlnum(s[1..]);
      assert !IsLowerAlnum(s[0]);
      assert Filter(s, IsLowerAlnum) == Filter(s[1..], IsLowerAlnum);
    }
  }

  /** `Underscore` keeps the letters and digits, in order. */
  lemma {:induction false} UnderscoreKeepsAlnum(s: string)
    ensures Filter(Underscore(s), IsLowerAlnum) == Filter(s, IsLowerAlnum)
    decreases |s|
  {
    if s != [] {
      assert s == [s[0]] + s[1..];
      FilterConcat([s[0]], s[1..], IsLowerAlnum);
      if IsSpace(s[0]) {
        var d := DropSpaces(s[1..]);
        UnderscoreKeepsAlnum(d);
        DropSpacesKeepsAlnum(s[1..]);
        FilterConcat("_", Underscore(d), IsLowerAlnum);
      } else {
        UnderscoreKeepsAlnum(s[1..]);
        FilterConcat([s[0]], Underscore(s[1..]), IsLowerAlnum);
      }
    }
  }

  /** A string without whitespace passes `Underscore` unchanged. */
  lemma {:induction false} UnderscoreNoSpace(s: string)
    requires NoSpace(s)
    ensures Underscore(s) == s
    decreases |s|
  {
    if s != [] {
      UnderscoreNoSpace(s[1..]);
      assert s == [s[0]] + s[1..];
    }
  }

  /** The generated value consists of a-z, 0-9 and `_` only, and never holds `__`. */
  lemma GenerateValueCharset(labelText: string)
    requires IsAscii(labelText)
    ensures forall i :: 0 <= i < |GenerateValue(labelText)| ==> IsSlugChar(GenerateValue(labelText)[i])
    ensures NoDoubleUnderscore(GenerateValue(labelText))
  {
    var t := StripSpecial(ToLower(labelText));
    StripSpecialIsStripped(ToLower(labelText));
    UnderscoreShape(t);
    UnderscoreNoDouble(t);
    TrimNoSpace(Underscore(t));
  }

  /** Leading and trailing whitespace of the label become a leading and a
      trailing `_`: the whitespace is replaced before `trim` could remove it. */
  lemma GenerateValueEdges(labelText: string)
    requires IsAscii(labelText) && |labelText| > 0
    ensures IsSpace(labelText[0]) ==> |GenerateValue(labelText)| > 0 && GenerateValue(labelText)[0] == '_'
    ensures IsSpace(labelText[|labelText| - 1]) ==>
              |GenerateValue(labelText)| > 0 && GenerateValue(labelText)[|GenerateValue(labelText)| - 1] == '_'
  {
    if IsSpace(labelText[0]) {
      LeadingSpaceKept(labelText);
    }
    if IsSpace(labelText[|labelText| - 1]) {
      TrailingSpaceKept(labelText);
    }
  }

  lemma LeadingSpaceKept(labelText: string)
    requires IsAscii(labelText) && |labelText| > 0 && IsSpace(labelText[0])
    ensures |GenerateValue(labelText)| > 0 && GenerateValue(labelText)[0] == '_'
  {
    var lower := ToLower(labelText);
    assert IsSpace(lower[0]);
    FilterKeepsFirst(lower, Kept);
    var t := StripSpecial(lower);
    assert |t| > 0 && IsSpace(t[0]);
    TrimIsNoOp(labelText);
    UnderscoreEnds(t);
  }

  lemma TrailingSpaceKept(labelText: string)
    requires IsAscii(labelText) && |labelText| > 0 && IsSpace(labelText[|labelText| - 1])
    ensures |GenerateValue(labelText)| > 0 && GenerateValue(labelText)[|GenerateValue(labelText)| - 1] == '_'
  {
    var lower := ToLower(labelText);
    assert IsSpace(lower[|lower| - 1]);
    FilterKeepsLast(lower, Kept);
    var t := StripSpecial(lower);
    assert |t| > 0 && IsSpace(t[|t| - 1]);
    TrimIsNoOp(labelText);
    UnderscoreEnds(t);
  }

  /** The final `trim` never changes anything: whitespace is gone by then. */
  lemma TrimIsNoOp(labelText: string)
    requires IsAscii(labelText)
    ensures Stripped(StripSpecial(ToLower(labelText)))
    ensures GenerateValue(labelText) == Underscore(StripSpecial(ToLower(labelText)))
  {
    var t := StripSpecial(ToLower(labelText));
    StripSpecialIsStripped(ToLower(labelText));
    UnderscoreCharset(t);
    TrimNoSpace(Underscore(t));
  }

  /** `" Lab "` gives `"_lab_"`. */
  lemma PaddedLabelExample()
    ensures GenerateValue(" Lab ") == "_lab_"
  {
    StripExample();
    UnderscoreExample();
    TrimExample();
  }

  lemma StripExample()
    ensures StripSpecial(ToLower(" Lab ")) == " lab "
  {
    var lower := ToLower(" Lab ");
    assert lower == " lab ";
    FilterAll(lower, Kept);
  }

  lemma TrimExample()
    ensures Trim("_lab_") == "_lab_"
  {
    var u := "_lab_";
    assert NoSpace(u) by {
      assert u[0] == '_' && u[1] == 'l' && u[2] == 'a' && u[3] == 'b' && u[4] == '_';
      forall i | 0 <= i < |u| ensures !IsSpace(u[i]) {
        assert i == 0 || i == 1 || i == 2 || i == 3 || i == 4;
      }
    }
    TrimNoSpace(u);
  }

  lemma UnderscoreExample()
    ensures Underscore(" lab ") == "_lab_"
  {
    UnderscoreWord('l', 'a', 'b');
    assert [' ', 'l', 'a', 'b', ' '] == " lab ";
    assert ['_', 'l', 'a', 'b', '_'] == "_lab_";
  }

  /** A three-letter word between two spaces. */
  lemma UnderscoreWord(a: char, b: char, c: char)
    requires !IsSpace(a) && !IsSpace(b) && !IsSpace(c)
    ensures Underscore([' ', a, b, c, ' ']) == ['_', a, b, c, '_']
  {
    var sp: string := [' '];
    UnderscoreSpace([]);
    assert sp + [] == sp;
    UnderscoreLetter(c, sp);
    UnderscoreLetter(b, [c] + sp);
    UnderscoreLetter(a, [b] + ([c] + sp));
    var w := [a] + ([b] + ([c] + sp));
    assert w == [a, b, c, ' '];
    UnderscoreSpace(w);
    assert [' '] + w == [' ', a, b, c, ' '];
  }

  lemma UnderscoreLetter(c: char, t: string)
    requires !IsSpace(c)
    ensures Underscore([c] + t) == [c] + Underscore(t)
  {
    assert ([c] + t)[1..] == t;
  }

  /** A space followed by a non-space becomes one `_`. */
  lemma UnderscoreSpace(t: string)
    requires t == [] || !IsSpace(t[0])
    ensures Underscore([' '] + t) == "_" + Underscore(t)
  {
    assert ([' '] + t)[1..] == t;
  }

  /** Removing the underscores from the value gives back the label's letters
      and digits, lower-cased and in order. */
  lemma GenerateValueKeepsAlnum(labelText: string)
    requires IsAscii(labelText)
    ensures Filter(GenerateValue(labelText), IsLowerAlnum) == Filter(ToLower(labelText), IsLowerAlnum)
  {
    var lower := ToLower(labelText);
    var t := StripSpecial(lower);
    StripSpecialIsStripped(lower);
    UnderscoreShape(t);
    TrimNoSpace(Underscore(t));
    UnderscoreKeepsAlnum(t);
    FilterOfStripSpecial(lower);
  }

  /** Keeping letters, digits and whitespace, then letters and digits, keeps
      letters and digits. */
  lemma {:induction false} FilterOfStripSpecial(s: string)
    ensures Filter(StripSpecial(s), IsLowerAlnum) == Filter(s, IsLowerAlnum)
    decreases |s|
  {
    if s != [] {
      FilterOfStripSpecial(s[1..]);
      assert s == [s[0]] + s[1..];
      var a := StripSpecial(s);
      if Kept(s[0]) {
        assert a == [s[0]] + StripSpecial(s[1..]);
        assert a[0] == s[0] && a[1..] == StripSpecial(s[1..]);
      } else {
        assert a == StripSpecial(s[1..]);
      }
    }
  }

  /** A label without whitespace yields its lower-cased letters and digits, in
      order, with everything else (underscores included) deleted. */
  lemma GenerateValueWithoutSpaces(labelText: string)
    requires IsAscii(labelText) && NoSpace(labelText)
    ensures GenerateValue(labelText) == Filter(ToLower(labelText), IsLowerAlnum)
  {
    var lower := ToLower(labelText);
    var t := StripSpecial(lower);
    assert NoSpace(t) by {
      forall i | 0 <= i < |t| ensures !IsSpace(t[i]) {
        assert t[i] in lower;
      }
    }
    UnderscoreNoSpace(t);
    TrimNoSpace(t);
    StripSpecialWithoutSpaces(lower);
  }

  lemma {:induction false} StripSpecialWithoutSpaces(s: string)
    requires NoSpace(s)
    ensures StripSpecial(s) == Filter(s, IsLowerAlnum)
    decreases |s|
  {
    if s != [] {
      StripSpecialWithoutSpaces(s[1..]);
    }
  }
}
