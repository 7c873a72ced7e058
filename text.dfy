/**
 * The handful of Python `str` operations the system relies on: `isspace`, `strip`,
 * `split` on one separator character, `lower` on ASCII, `startswith` and `endswith`.
 */
module Text {
  import opened Seqs

  /** Python's `str.isspace()` for one character. */
  predicate IsSpace(c: char)
  {
    || c == ' '
    || ('\t' <= c <= '\r')
    || ('\U{1C}' <= c <= '\U{1F}')
    || c == '\U{85}' || c == '\U{A0}' || c == '\U{1680}'
    || ('\U{2000}' <= c <= '\U{200A}')
    || c == '\U{2028}' || c == '\U{2029}' || c == '\U{202F}' || c == '\U{205F}' || c == '\U{3000}'
  }

  /** `s` with its leading characters satisfying `drop` removed. */
  function TrimStart(s: string, drop: char -> bool): (r: string)
    ensures |r| <= |s| && r == s[|s| - |r|..]
    ensures forall i :: 0 <= i < |s| - |r| ==> drop(s[i])
    ensures r == [] || !drop(r[0])
  {
    if s != [] && drop(s[0]) then TrimStart(s[1..], drop) else s
  }

  /** `s` with its trailing characters satisfying `drop` removed. */
  function TrimEnd(s: string, drop: char -> bool): (r: string)
    ensures |r| <= |s| && r == s[..|r|]
    ensures forall i :: |r| <= i < |s| ==> drop(s[i])
    ensures r == [] || !drop(r[|r| - 1])
  {
    if s != [] && drop(s[|s| - 1]) then TrimEnd(s[..|s| - 1], drop) else s
  }

  /**
   * Python's `s.strip(chars)`: the longest infix of `s` that neither starts nor ends with a
   * character satisfying `drop`; every character cut off on either side satisfies `drop`.
   */
  function StripBy(s: string, drop: char -> bool): (r: string)
    ensures |r| <= |s|
    ensures r == [] || (!drop(r[0]) && !drop(r[|r| - 1]))
    ensures var k := |s| - |TrimStart(s, drop)|;
              && InfixAt(r, s, k)
              && (forall i :: 0 <= i < k ==> drop(s[i]))
              && (forall i :: k + |r| <= i < |s| ==> drop(s[i]))
  {
    StripFacts(s, drop);
    TrimEnd(TrimStart(s, drop), drop)
  }

  /** Trimming the start and then the end leaves an infix with the properties of `StripBy`. */
  lemma StripFacts(s: string, drop: char -> bool)
    ensures var r := TrimEnd(TrimStart(s, drop), drop);
      && |r| <= |s|
      && (r == [] || (!drop(r[0]) && !drop(r[|r| - 1])))
      && var k := |s| - |TrimStart(s, drop)|;
         && InfixAt(r, s, k)
         && (forall i :: 0 <= i < k ==> drop(s[i]))
         && (forall i :: k + |r| <= i < |s| ==> drop(s[i]))
  {
    var t := TrimStart(s, drop);
    var r := TrimEnd(t, drop);
    TrimmedInfix(s, t, r, drop);
    assert r == [] || !drop(r[0]) by {
      if r != [] { assert r[0] == t[0]; }
    }
  }

  /** `r` occurs in `s` starting at index `k`. */
  predicate InfixAt(r: string, s: string, k: nat)
  {
    k + |r| <= |s| && r == s[k..k + |r|]
  }

  /** A prefix `r` of a suffix `t` of `s` is the infix of `s` that starts where `t` does. */
  lemma TrimmedInfix(s: string, t: string, r: string, drop: char -> bool)
    requires |t| <= |s| && t == s[|s| - |t|..]
    requires |r| <= |t| && r == t[..|r|]
    requires forall i :: |r| <= i < |t| ==> drop(t[i])
    ensures InfixAt(r, s, |s| - |t|)
    ensures forall i :: |s| - |t| + |r| <= i < |s| ==> drop(s[i])
  {
    var k := |s| - |t|;
    forall i | k + |r| <= i < |s| ensures drop(s[i]) {
      assert s[i] == t[i - k];
    }
    assert r == s[k..k + |r|];
  }

  /** Python's `s.strip()`. */
  function Strip(s: string): string
  {
    StripBy(s, IsSpace)
  }

  /** Number of occurrences of `c` in `s`. */
  function Count(s: string, c: char): nat
  {
    if s == [] then 0 else (if s[0] == c then 1 else 0) + Count(s[1..], c)
  }

  /**
   * Python's `s.split(sep)` for a one-character separator: the pieces between separators,
   * empty pieces included; there is always one piece more than there are separators.
   */
  function Split(s: string, sep: char): (r: seq<string>)
    ensures |r| == Count(s, sep) + 1
    ensures forall i :: 0 <= i < |r| ==> sep !in r[i]
  {
    if s == [] then [""]
    else
      var rest := Split(s[1..], sep);
      if s[0] == sep then [""] + rest
      else [[s[0]] + rest[0]] + rest[1..]
  }

  /** The index of the first `c` in `s`, or `|s|` when there is none. */
  function FirstIndex(s: string, c: char): (k: nat)
    ensures k <= |s| && c !in s[..k]
    ensures k == |s| || s[k] == c
  {
    if s == [] || s[0] == c then 0
    else
      var k := FirstIndex(s[1..], c);
      assert s[..k + 1] == [s[0]] + s[1..][..k];
      1 + k
  }

  /** The first piece of a split is everything before the first separator. */
  lemma {:induction false} SplitFirst(s: string, sep: char)
    ensures Split(s, sep)[0] == s[..FirstIndex(s, sep)]
  {
    if s != [] && s[0] != sep {
      SplitFirst(s[1..], sep);
      assert s[..FirstIndex(s, sep)] == [s[0]] + s[1..][..FirstIndex(s[1..], sep)];
    }
  }

  /** Python's `sep.join(pieces)`. */
  function Join(pieces: seq<string>, sep: char): string
  {
    if pieces == [] then ""
    else if |pieces| == 1 then pieces[0]
    else pieces[0] + [sep] + Join(pieces[1..], sep)
  }

  /** Joining the pieces of a split with the same separator gives back the original string. */
  lemma {:induction false} JoinSplit(s: string, sep: char)
    ensures Join(Split(s, sep), sep) == s
  {
    if s != [] {
      var rest := Split(s[1..], sep);
      JoinSplit(s[1..], sep);
      if s[0] == sep {
        assert Split(s, sep) == [""] + rest;
        assert ([""] + rest)[1..] == rest;
      } else {
        var r := Split(s, sep);
        assert r == [[s[0]] + rest[0]] + rest[1..];
        if |rest| == 1 {
          assert s == [s[0]] + s[1..];
        } else {
          assert r[1..] == rest[1..];
          assert Join(rest, sep) == rest[0] + [sep] + Join(rest[1..], sep);
          assert s == [s[0]] + s[1..];
        }
      }
    }
  }

  /** A string without the separator is a single piece. */
  lemma {:induction false} SplitNoSep(p: string, sep: char)
    requires sep !in p
    ensures Split(p, sep) == [p]
  {
    if p != [] {
      SplitNoSep(p[1..], sep);
      assert p == [p[0]] + p[1..];
    }
  }

  /** A piece without the separator, followed by the separator, becomes the first piece. */
  lemma {:induction false} SplitCons(p: string, sep: char, rest: string)
    requires sep !in p
    ensures Split(p + [sep] + rest, sep) == [p] + Split(rest, sep)
  {
    if p == [] {
      assert p + [sep] + rest == [sep] + rest;
      assert ([sep] + rest)[1..] == rest;
    } else {
      var s := p + [sep] + rest;
      assert s[1..] == p[1..] + [sep] + rest;
      SplitCons(p[1..], sep, rest);
      assert p == [p[0]] + p[1..];
    }
  }

  /** Splitting a join of separator-free pieces gives back the pieces. */
  lemma {:induction false} SplitJoin(pieces: seq<string>, sep: char)
    requires pieces != []
    requires forall i :: 0 <= i < |pieces| ==> sep !in pieces[i]
    ensures Split(Join(pieces, sep), sep) == pieces
  {
    if |pieces| == 1 {
      SplitNoSep(pieces[0], sep);
    } else {
      SplitJoin(pieces[1..], sep);
      SplitCons(pieces[0], sep, Join(pieces[1..], sep));
      assert pieces == [pieces[0]] + pieces[1..];
    }
  }

  /** Non-empty, and neither starting nor ending with whitespace: what stripping leaves. */
  predicate Tidy(x: string)
  {
    x != [] && !IsSpace(x[0]) && !IsSpace(x[|x| - 1])
  }

  /** `[p.strip() for p in pieces]`. */
  function StripAll(pieces: seq<string>): (r: seq<string>)
    ensures |r| == |pieces|
  {
    seq(|pieces|, i requires 0 <= i < |pieces| => Strip(pieces[i]))
  }

  predicate NonBlank(p: string)
  {
    p != []
  }

  /**
   * `[Strip(p) for p in pieces if Strip(p)]`: the stripped pieces that are not empty, in
   * their order, each of them non-empty and without whitespace at either end.
   */
  function StrippedNonBlank(pieces: seq<string>): (r: seq<string>)
    ensures r == Filter(StripAll(pieces), NonBlank)
    ensures forall i :: 0 <= i < |r| ==> r[i] != [] && !IsSpace(r[i][0]) && !IsSpace(r[i][|r[i]| - 1])
  {
    if pieces == [] then []
    else
      var p := Strip(pieces[0]);
      var rest := StrippedNonBlank(pieces[1..]);
      StripAllTail(pieces);
      if p != [] then
        ConsStripped(p, rest);
        [p] + rest
      else rest
  }

  /** Stripping all pieces commutes with dropping the first one. */
  lemma StripAllTail(pieces: seq<string>)
    requires pieces != []
    ensures StripAll(pieces)[0] == Strip(pieces[0])
    ensures StripAll(pieces)[1..] == StripAll(pieces[1..])
  {
  }

  /** Putting a stripped, non-empty string in front keeps every element stripped and non-empty. */
  lemma ConsStripped(p: string, rest: seq<string>)
    requires p != [] && !IsSpace(p[0]) && !IsSpace(p[|p| - 1])
    requires forall i :: 0 <= i < |rest| ==> rest[i] != [] && !IsSpace(rest[i][0]) && !IsSpace(rest[i][|rest[i]| - 1])
    ensures var r := [p] + rest;
      forall i :: 0 <= i < |r| ==> r[i] != [] && !IsSpace(r[i][0]) && !IsSpace(r[i][|r[i]| - 1])
  {
    var r := [p] + rest;
    forall i | 1 <= i < |r|
      ensures r[i] != [] && !IsSpace(r[i][0]) && !IsSpace(r[i][|r[i]| - 1])
    {
      assert r[i] == rest[i - 1];
    }
  }

  /**
   * `[x.strip() for x in s.split(",") if x.strip()]`: the non-blank comma-separated items of
   * `s`, stripped, in their original order.
   */
  function CommaList(s: string): (r: seq<string>)
    ensures r == Filter(StripAll(Split(s, ',')), NonBlank)
    ensures |r| <= Count(s, ',') + 1
    ensures forall i :: 0 <= i < |r| ==> r[i] != [] && ',' !in r[i]
    ensures forall i :: 0 <= i < |r| ==> !IsSpace(r[i][0]) && !IsSpace(r[i][|r[i]| - 1])
  {
    var pieces := Split(s, ',');
    var r := StrippedNonBlank(pieces);
    assert forall i :: 0 <= i < |r| ==> ',' !in r[i] by {
      StrippedKeepsOut(pieces, ',');
    }
    r
  }

  /** A string that neither starts nor ends with whitespace is its own strip. */
  lemma StripOfStripped(p: string)
    requires p != [] && !IsSpace(p[0]) && !IsSpace(p[|p| - 1])
    ensures Strip(p) == p
  {
    assert TrimStart(p, IsSpace) == p;
    assert TrimEnd(p, IsSpace) == p;
  }

  /** A string made only of whitespace strips to the empty string. */
  lemma StripOfBlank(p: string)
    requires forall c :: c in p ==> IsSpace(c)
    ensures Strip(p) == []
  {
  }

  /** A string that strips to nothing is made only of whitespace. */
  lemma BlankOfStrip(p: string)
    requires Strip(p) == []
    ensures forall c :: c in p ==> IsSpace(c)
  {
  }

  /** Stripped, non-empty pieces pass through `StrippedNonBlank` unchanged. */
  lemma {:induction false} StrippedNonBlankOfStripped(pieces: seq<string>)
    requires forall i :: 0 <= i < |pieces| ==> pieces[i] != [] && !IsSpace(pieces[i][0]) && !IsSpace(pieces[i][|pieces[i]| - 1])
    ensures StrippedNonBlank(pieces) == pieces
  {
    if pieces != [] {
      StripOfStripped(pieces[0]);
      StrippedNonBlankOfStripped(pieces[1..]);
    }
  }

  /** A piece that is already stripped and non-empty survives `StrippedNonBlank`. */
  lemma {:induction false} StrippedNonBlankKeepsStripped(pieces: seq<string>, i: nat)
    requires i < |pieces|
    requires pieces[i] != [] && !IsSpace(pieces[i][0]) && !IsSpace(pieces[i][|pieces[i]| - 1])
    ensures pieces[i] in StrippedNonBlank(pieces)
  {
    if i == 0 {
      StripOfStripped(pieces[0]);
    } else {
      StrippedNonBlankKeepsStripped(pieces[1..], i - 1);
    }
  }

  /** Pieces made only of whitespace all disappear. */
  lemma {:induction false} StrippedNonBlankOfBlank(pieces: seq<string>)
    requires forall i, c :: 0 <= i < |pieces| && c in pieces[i] ==> IsSpace(c)
    ensures StrippedNonBlank(pieces) == []
  {
    if pieces != [] {
      StripOfBlank(pieces[0]);
      StrippedNonBlankOfBlank(pieces[1..]);
    }
  }

  /** Every character of a piece of a split occurs in the split string. */
  lemma {:induction false} SplitChars(s: string, sep: char)
    ensures forall i, c :: 0 <= i < |Split(s, sep)| && c in Split(s, sep)[i] ==> c in s
  {
    if s != [] {
      SplitChars(s[1..], sep);
      assert forall c :: c in s[1..] ==> c in s;
    }
  }

  /**
   * The comma list of items joined by commas gives the items back, when they are non-empty,
   * stripped and free of commas: the items keep their order.
   */
  lemma CommaListOfJoin(items: seq<string>)
    requires items != []
    requires forall i :: 0 <= i < |items| ==> items[i] != [] && ',' !in items[i]
    requires forall i :: 0 <= i < |items| ==> !IsSpace(items[i][0]) && !IsSpace(items[i][|items[i]| - 1])
    ensures CommaList(Join(items, ',')) == items
  {
    SplitJoin(items, ',');
    StrippedNonBlankOfStripped(items);
  }

  /**
   * The comma list of any comma-free pieces joined by commas: each piece stripped, the empty
   * ones dropped, the others in their order. Every string is such a join (`JoinSplit`).
   */
  lemma CommaListOfPieces(pieces: seq<string>)
    requires pieces != []
    requires forall i :: 0 <= i < |pieces| ==> ',' !in pieces[i]
    ensures CommaList(Join(pieces, ',')) == Filter(StripAll(pieces), NonBlank)
  {
    SplitJoin(pieces, ',');
  }

  /** The first piece of a join is a prefix of it. */
  lemma JoinHasFirst(pieces: seq<string>, sep: char)
    requires pieces != []
    ensures pieces[0] <= Join(pieces, sep)
  {
  }

  /** A string of commas and whitespace has an empty comma list. */
  lemma CommaListOfSeparators(s: string)
    requires forall c :: c in s ==> c == ',' || IsSpace(c)
    ensures CommaList(s) == []
  {
    SplitChars(s, ',');
    var pieces := Split(s, ',');
    forall i, c | 0 <= i < |pieces| && c in pieces[i] ensures IsSpace(c) {
      assert c in s && c != ',';
    }
    StrippedNonBlankOfBlank(pieces);
  }

  /** Stripping never introduces a character that was not there. */
  lemma {:induction false} StrippedKeepsOut(pieces: seq<string>, c: char)
    requires forall i :: 0 <= i < |pieces| ==> c !in pieces[i]
    ensures forall i :: 0 <= i < |StrippedNonBlank(pieces)| ==> c !in StrippedNonBlank(pieces)[i]
  {
    if pieces != [] {
      StrippedKeepsOut(pieces[1..], c);
      var p, rest := Strip(pieces[0]), StrippedNonBlank(pieces[1..]);
      assert c !in p by {
        assert forall k :: 0 <= k < |p| ==> p[k] in pieces[0];
      }
      var r := StrippedNonBlank(pieces);
      assert r == if p != [] then [p] + rest else rest;
      forall i | 0 <= i < |r| ensures c !in r[i] {
        if p != [] && i > 0 { assert r[i] == rest[i - 1]; }
      }
    }
  }

  predicate IsUpperAscii(c: char)
  {
    'A' <= c <= 'Z'
  }

  /**
   * ASCII upper-case letters mapped to lower case, every other character unchanged: no
   * upper-case ASCII letter is left, and a character changes only when it is one.
   */
  function LowerAscii(s: string): (r: string)
    ensures |r| == |s|
    ensures forall i :: 0 <= i < |r| ==> !IsUpperAscii(r[i])
    ensures forall i :: 0 <= i < |s| && !IsUpperAscii(s[i]) ==> r[i] == s[i]
    ensures forall i :: 0 <= i < |s| && IsUpperAscii(s[i]) ==> r[i] as int == s[i] as int - 'A' as int + 'a' as int
  {
    seq(|s|, i requires 0 <= i < |s| => if IsUpperAscii(s[i]) then (s[i] as int + 32) as char else s[i])
  }

  /** Lowering works character by character, so it distributes over concatenation. */
  lemma LowerAsciiAppend(a: string, b: string)
    ensures LowerAscii(a + b) == LowerAscii(a) + LowerAscii(b)
  {
    var l, r := LowerAscii(a + b), LowerAscii(a) + LowerAscii(b);
    forall i | 0 <= i < |l| ensures l[i] == r[i] {
      if i < |a| { assert (a + b)[i] == a[i]; } else { assert (a + b)[i] == b[i - |a|]; }
    }
  }

  /** A string without upper-case ASCII letters is its own lowering; lowering is idempotent. */
  lemma LowerAsciiOfLower(s: string)
    requires forall i :: 0 <= i < |s| ==> !IsUpperAscii(s[i])
    ensures LowerAscii(s) == s
  {
  }

  /**
   * Suffix tests after lowering ignore ASCII case: a string ending in any case variant of `x`
   * ends, once lowered, in `x` lowered.
   */
  lemma EndsWithIgnoringCase(s: string, x: string)
    requires EndsWith(s, x)
    ensures EndsWith(LowerAscii(s), LowerAscii(x))
  {
    var k := |s| - |x|;
    assert s == s[..k] + x;
    LowerAsciiAppend(s[..k], x);
  }

  predicate StartsWith<T(==)>(s: seq<T>, prefix: seq<T>)
  {
    |prefix| <= |s| && s[..|prefix|] == prefix
  }

  predicate EndsWith<T(==)>(s: seq<T>, suffix: seq<T>)
  {
    |suffix| <= |s| && s[|s| - |suffix|..] == suffix
  }
}
