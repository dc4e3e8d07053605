/**
  The text normaliser that puts a spoken transcript and the verse texts of a
  surah into one comparison form (`normalizeText`, src/app/page.js:115-121).
  It is a chain of four whole-string rewrites, modelled here as four functions:

    1. StripHarakat          removes the harakat, U+064B to U+0652
    2. KeepLettersAndSpaces  removes all but Arabic letters and whitespace
    3. CollapseSpaces        turns every run of whitespace into one space
    4. Trim                  removes whitespace at both ends

  The lemmas show what the chain guarantees: only Arabic letters and single
  inner spaces remain (IsNormal), the letters of the input survive in order,
  whitespace between two words becomes exactly one space
  (NormalizeSeparatesWords), a normal string is left alone, and hence
  normalising twice changes nothing.
*/
module ArabicText {

  /** The harakat: short vowels and the other combining marks, U+064B to U+0652. */
  predicate IsHaraka(c: char) {
    '\U{064B}' <= c <= '\U{0652}'
  }

  /** A core Arabic letter, U+0621 to U+064A. */
  predicate IsLetter(c: char) {
    '\U{0621}' <= c <= '\U{064A}'
  }

  /**
    The characters ECMAScript's `\s` matches: WhiteSpace (tab, vertical tab,
    form feed, the byte order mark and every space separator) and
    LineTerminator. `String.prototype.trim` and `parseInt` skip the same set.
  */
  predicate IsSpace(c: char) {
    || c == '\t' || c == '\n' || c == '\U{000B}' || c == '\U{000C}' || c == '\r'
    || c == ' ' || c == '\U{00A0}' || c == '\U{1680}' || ('\U{2000}' <= c <= '\U{200A}')
    || c == '\U{2028}' || c == '\U{2029}' || c == '\U{202F}' || c == '\U{205F}'
    || c == '\U{3000}' || c == '\U{FEFF}'
  }

  /** What stage 2 keeps: an Arabic letter or whitespace. */
  predicate IsKept(c: char) {
    IsLetter(c) || IsSpace(c)
  }

  predicate OnlyKept(s: string) {
    forall i :: 0 <= i < |s| ==> IsKept(s[i])
  }

  /** Every character is an Arabic letter or the plain space U+0020. */
  predicate InAlphabet(s: string) {
    forall i :: 0 <= i < |s| ==> IsLetter(s[i]) || s[i] == ' '
  }

  predicate NoDoubleSpace(s: string) {
    forall i :: 0 <= i < |s| - 1 ==> !(IsSpace(s[i]) && IsSpace(s[i + 1]))
  }

  predicate NoEdgeSpace(s: string) {
    s != [] ==> !IsSpace(s[0]) && !IsSpace(s[|s| - 1])
  }

  /** The shape of normalised text: letters separated by single spaces. */
  predicate IsNormal(s: string) {
    InAlphabet(s) && NoDoubleSpace(s) && NoEdgeSpace(s)
  }

  /** Stage 1: removes every haraka. */
  function StripHarakat(s: string): (r: string)
    ensures |r| <= |s|
    ensures forall i :: 0 <= i < |r| ==> !IsHaraka(r[i])
    ensures OnlyKept(s) ==> OnlyKept(r)
  {
    if s == [] then []
    else if IsHaraka(s[0]) then StripHarakat(s[1..])
    else [s[0]] + StripHarakat(s[1..])
  }

  /** Stage 1 deletes a haraka outright. */
  lemma StripHarakatOfHaraka(h: char)
    requires IsHaraka(h)
    ensures StripHarakat([h]) == []
  {
    assert [h][1..] == [];
  }

  /** Stage 2: removes every character that is neither an Arabic letter nor whitespace. */
  function KeepLettersAndSpaces(s: string): (r: string)
    ensures |r| <= |s|
    ensures OnlyKept(r)
  {
    if s == [] then []
    else if IsKept(s[0]) then [s[0]] + KeepLettersAndSpaces(s[1..])
    else KeepLettersAndSpaces(s[1..])
  }

  /** Drops the leading run of whitespace (`trimStart`). */
  function DropSpaces(s: string): (r: string)
    ensures |r| <= |s|
    ensures r != [] ==> !IsSpace(r[0])
  {
    if s != [] && IsSpace(s[0]) then DropSpaces(s[1..]) else s
  }

  /**
    What `DropSpaces` returns is a suffix of its argument. (Kept out of the
    function's contract: as a postcondition the slice equation gives the
    solver a loop of ever longer slice terms wherever `Normalize` appears.)
  */
  lemma {:induction false} DropSpacesIsSuffix(s: string)
    ensures DropSpaces(s) == s[|s| - |DropSpaces(s)|..]
  {
    if s != [] && IsSpace(s[0]) {
      DropSpacesIsSuffix(s[1..]);
      assert s[1..][|s| - 1 - |DropSpaces(s)|..] == s[|s| - |DropSpaces(s)|..];
    }
  }

  /** What `DropSpaces` removes is whitespace. */
  lemma {:induction false} DropSpacesDropsSpaces(s: string)
    ensures var r := DropSpaces(s); forall i :: 0 <= i < |s| - |r| ==> IsSpace(s[i])
  {
    if s != [] && IsSpace(s[0]) {
      DropSpacesDropsSpaces(s[1..]);
      var r := DropSpaces(s);
      forall i | 1 <= i < |s| - |r| ensures IsSpace(s[i]) {
        assert s[i] == s[1..][i - 1];
      }
    }
  }

  /** Drops the trailing run of whitespace (`trimEnd`). */
  function TrimEnd(s: string): (r: string)
    ensures |r| <= |s| && r == s[..|r|]
    ensures r != [] ==> !IsSpace(r[|r| - 1])
  {
    if s != [] && IsSpace(s[|s| - 1]) then TrimEnd(s[..|s| - 1]) else s
  }

  /** What `TrimEnd` removes is whitespace. */
  lemma {:induction false} TrimEndDropsSpaces(s: string)
    ensures var r := TrimEnd(s); forall i :: |r| <= i < |s| ==> IsSpace(s[i])
  {
    if s != [] && IsSpace(s[|s| - 1]) {
      TrimEndDropsSpaces(s[..|s| - 1]);
      var r := TrimEnd(s);
      forall i | |r| <= i < |s| - 1 ensures IsSpace(s[i]) {
        assert s[i] == s[..|s| - 1][i];
      }
    }
  }

  /** Stage 3: every maximal run of whitespace becomes one plain space. */
  function CollapseSpaces(s: string): (r: string)
    ensures s != [] ==> r != [] && (IsSpace(r[0]) <==> IsSpace(s[0]))
    ensures NoDoubleSpace(r)
    ensures OnlyKept(s) ==> InAlphabet(r)
    decreases |s|
  {
    if s == [] then []
    else if IsSpace(s[0]) then
      var t := DropSpaces(s[1..]);
      var rest := CollapseSpaces(t);
      ConsKeepsShape(' ', rest);
      assert OnlyKept(s) ==> OnlyKept(t) by {
        DropSpacesIsSuffix(s[1..]);
        if OnlyKept(s) {
          forall i | 0 <= i < |t| ensures IsKept(t[i]) {
            assert t[i] == s[|s| - |t| + i];
          }
        }
      }
      [' '] + rest
    else
      var rest := CollapseSpaces(s[1..]);
      ConsKeepsShape(s[0], rest);
      assert OnlyKept(s) ==> OnlyKept(s[1..]) by {
        if OnlyKept(s) {
          forall i | 0 <= i < |s| - 1 ensures IsKept(s[1..][i]) {
            assert s[1..][i] == s[i + 1];
          }
        }
      }
      [s[0]] + rest
  }

  /** Putting one character in front of a string with the normal inner shape. */
  lemma ConsKeepsShape(c: char, t: string)
    ensures NoDoubleSpace(t) && (t == [] || !IsSpace(c) || !IsSpace(t[0])) ==> NoDoubleSpace([c] + t)
    ensures InAlphabet(t) && (IsLetter(c) || c == ' ') ==> InAlphabet([c] + t)
  {
    var r := [c] + t;
    assert forall i :: 1 <= i < |r| ==> r[i] == t[i - 1];
  }

  /** Stage 4: drops whitespace at both ends. */
  function Trim(s: string): (r: string)
    ensures NoEdgeSpace(r)
  {
    var t := DropSpaces(s);
    var r := TrimEnd(t);
    assert r != [] ==> r[0] == t[0];
    r
  }

  /** Trimming keeps the alphabet and the single spacing of what it trims. */
  lemma TrimKeepsShape(s: string)
    ensures InAlphabet(s) ==> InAlphabet(Trim(s))
    ensures NoDoubleSpace(s) ==> NoDoubleSpace(Trim(s))
  {
    var t := DropSpaces(s);
    DropSpacesIsSuffix(s);
    SliceKeepsShape(s, |s| - |t|, |s|);
    SliceKeepsShape(t, 0, |TrimEnd(t)|);
  }

  /** A piece of a string keeps its alphabet and its single spacing. */
  lemma SliceKeepsShape(s: string, i: nat, j: nat)
    requires i <= j <= |s|
    ensures InAlphabet(s) ==> InAlphabet(s[i..j])
    ensures NoDoubleSpace(s) ==> NoDoubleSpace(s[i..j])
  {
    var r := s[i..j];
    assert forall n :: 0 <= n < |r| ==> r[n] == s[i + n];
  }

  /** `normalizeText`: the four stages in order. Its output always has the normal shape. */
  function Normalize(s: string): (r: string)
    ensures IsNormal(r)
    ensures forall i :: 0 <= i < |r| ==> !IsHaraka(r[i])
  {
    var collapsed := CollapseSpaces(KeepLettersAndSpaces(StripHarakat(s)));
    TrimKeepsShape(collapsed);
    Trim(collapsed)
  }

  /** The Arabic letters of a string, in order. */
  function Letters(s: string): (r: string)
    ensures |r| <= |s|
    ensures forall i :: 0 <= i < |r| ==> IsLetter(r[i])
  {
    if s == [] then []
    else (if IsLetter(s[0]) then [s[0]] else []) + Letters(s[1..])
  }

  // ---------------------------------------------------------------------------
  // Concatenation

  lemma {:induction false} LettersAppend(a: string, b: string)
    ensures Letters(a + b) == Letters(a) + Letters(b)
  {
    if a != [] {
      assert (a + b)[0] == a[0] && (a + b)[1..] == a[1..] + b;
      LettersAppend(a[1..], b);
    } else {
      assert a + b == b;
    }
  }

  lemma {:induction false} StripHarakatAppend(a: string, b: string)
    ensures StripHarakat(a + b) == StripHarakat(a) + StripHarakat(b)
  {
    if a != [] {
      assert (a + b)[0] == a[0] && (a + b)[1..] == a[1..] + b;
      StripHarakatAppend(a[1..], b);
    } else {
      assert a + b == b;
    }
  }

  lemma {:induction false} KeepAppend(a: string, b: string)
    ensures KeepLettersAndSpaces(a + b) == KeepLettersAndSpaces(a) + KeepLettersAndSpaces(b)
  {
    if a != [] {
      assert (a + b)[0] == a[0] && (a + b)[1..] == a[1..] + b;
      KeepAppend(a[1..], b);
    } else {
      assert a + b == b;
    }
  }

  // ---------------------------------------------------------------------------
  // The letters of the input survive every stage, in order

  lemma {:induction false} LettersOfSpaces(s: string)
    requires forall i :: 0 <= i < |s| ==> IsSpace(s[i])
    ensures Letters(s) == []
  {
    if s != [] {
      LettersOfSpaces(s[1..]);
    }
  }

  lemma {:induction false} LettersStripHarakat(s: string)
    ensures Letters(StripHarakat(s)) == Letters(s)
  {
    if s != [] {
      LettersStripHarakat(s[1..]);
      if !IsHaraka(s[0]) {
        LettersAppend([s[0]], StripHarakat(s[1..]));
      }
    }
  }

  lemma {:induction false} LettersKeep(s: string)
    ensures Letters(KeepLettersAndSpaces(s)) == Letters(s)
  {
    if s != [] {
      LettersKeep(s[1..]);
      if IsKept(s[0]) {
        LettersAppend([s[0]], KeepLettersAndSpaces(s[1..]));
      }
    }
  }

  lemma {:induction false} LettersDropSpaces(s: string)
    ensures Letters(DropSpaces(s)) == Letters(s)
  {
    var r := DropSpaces(s);
    var k := |s| - |r|;
    DropSpacesIsSuffix(s);
    assert s == s[..k] + r;
    DropSpacesDropsSpaces(s);
    LettersAppend(s[..k], r);
    LettersOfSpaces(s[..k]);
  }

  lemma {:induction false} LettersTrimEnd(s: string)
    ensures Letters(TrimEnd(s)) == Letters(s)
  {
    var r := TrimEnd(s);
    assert s == r + s[|r|..];
    TrimEndDropsSpaces(s);
    LettersAppend(r, s[|r|..]);
    LettersOfSpaces(s[|r|..]);
  }

  lemma {:induction false} LettersCollapse(s: string)
    ensures Letters(CollapseSpaces(s)) == Letters(s)
    decreases |s|
  {
    if s != [] {
      var r := CollapseSpaces(s);
      if IsSpace(s[0]) {
        var t := DropSpaces(s[1..]);
        LettersCollapse(t);
        LettersAppend([' '], CollapseSpaces(t));
        LettersDropSpaces(s[1..]);
      } else {
        LettersCollapse(s[1..]);
        LettersAppend([s[0]], CollapseSpaces(s[1..]));
      }
    }
  }

  /** Normalising keeps exactly the Arabic letters of the input, in their order. */
  lemma NormalizeKeepsLetters(s: string)
    ensures Letters(Normalize(s)) == Letters(s)
  {
    var s1 := StripHarakat(s);
    var s2 := KeepLettersAndSpaces(s1);
    var s3 := CollapseSpaces(s2);
    LettersStripHarakat(s);
    LettersKeep(s1);
    LettersCollapse(s2);
    LettersDropSpaces(s3);
    LettersTrimEnd(DropSpaces(s3));
  }

  /** The result is empty exactly when the input holds no Arabic letter. */
  lemma NormalizeEmptyIff(s: string)
    ensures Normalize(s) == [] <==> Letters(s) == []
    ensures Normalize([]) == []
  {
    var r := Normalize(s);
    NormalizeKeepsLetters(s);
    if r != [] {
      assert IsLetter(r[0]);
      assert Letters(r) != [];
    }
  }

  // ---------------------------------------------------------------------------
  // Normal text is a fixed point, hence idempotence

  lemma {:induction false} StripHarakatNoop(s: string)
    requires forall i :: 0 <= i < |s| ==> !IsHaraka(s[i])
    ensures StripHarakat(s) == s
  {
    if s != [] {
      StripHarakatNoop(s[1..]);
    }
  }

  lemma {:induction false} KeepNoop(s: string)
    requires OnlyKept(s)
    ensures KeepLettersAndSpaces(s) == s
  {
    if s != [] {
      KeepNoop(s[1..]);
    }
  }

  lemma {:induction false} CollapseNoop(s: string)
    requires forall i :: 0 <= i < |s| && IsSpace(s[i]) ==> s[i] == ' '
    requires NoDoubleSpace(s)
    ensures CollapseSpaces(s) == s
  {
    if s != [] {
      CollapseNoop(s[1..]);
      if IsSpace(s[0]) && |s| > 1 {
        assert !IsSpace(s[1]);
      }
    }
  }

  /** Text already in normal shape is left unchanged. */
  lemma NormalFixpoint(s: string)
    requires IsNormal(s)
    ensures Normalize(s) == s
  {
    StripHarakatNoop(s);
    KeepNoop(s);
    CollapseNoop(s);
  }

  /** `normalizeText(normalizeText(x)) == normalizeText(x)`. */
  lemma NormalizeIdempotent(s: string)
    ensures Normalize(Normalize(s)) == Normalize(s)
  {
    NormalFixpoint(Normalize(s));
  }

  // ---------------------------------------------------------------------------
  // Characters that do not matter

  /** Inserting any character that is neither a letter nor whitespace changes nothing. */
  lemma NormalizeIgnoresDropped(a: string, c: char, b: string)
    requires !IsKept(c)
    ensures Normalize(a + [c] + b) == Normalize(a + b)
  {
    KeepStripIgnoresDropped(a, c, b);
  }

  lemma KeepStripIgnoresDropped(a: string, c: char, b: string)
    requires !IsKept(c)
    ensures KeepLettersAndSpaces(StripHarakat(a + [c] + b)) == KeepLettersAndSpaces(StripHarakat(a + b))
  {
    var x := a + [c] + b;
    StripHarakatRedundant(x);
    StripHarakatRedundant(a + b);
    KeepAppend(a + [c], b);
    KeepAppend(a, [c]);
    KeepAppend(a, b);
    assert KeepLettersAndSpaces([c]) == [] by {
      assert [c][1..] == [];
    }
    assert KeepLettersAndSpaces(a + [c]) == KeepLettersAndSpaces(a);
    assert KeepLettersAndSpaces(x) == KeepLettersAndSpaces(a) + KeepLettersAndSpaces(b);
  }

  /** A diacritic anywhere in the input does not change the result. */
  lemma NormalizeIgnoresHaraka(a: string, h: char, b: string)
    requires IsHaraka(h)
    ensures Normalize(a + [h] + b) == Normalize(a + b)
  {
    HarakaIsDropped(h);
    NormalizeIgnoresDropped(a, h, b);
  }

  lemma HarakaIsDropped(h: char)
    requires IsHaraka(h)
    ensures !IsKept(h)
  {
  }

  /** Stage 1 is subsumed by stage 2: harakat are neither letters nor whitespace. */
  lemma {:induction false} StripHarakatRedundant(s: string)
    ensures KeepLettersAndSpaces(StripHarakat(s)) == KeepLettersAndSpaces(s)
  {
    if s != [] {
      StripHarakatRedundant(s[1..]);
    }
  }

  // ---------------------------------------------------------------------------
  // Exactly one space between words

  // Plain sequence identities, used as single reusable steps by the
  // word-separation proofs below.

  lemma ConcatAssoc(a: string, b: string, c: string)
    ensures a + (b + c) == (a + b) + c
  {
  }

  lemma SplitHead(a: string, b: string)
    requires a != []
    ensures (a + b)[0] == a[0] && (a + b)[1..] == a[1..] + b
  {
  }

  lemma SplitLast(a: string, b: string)
    requires b != []
    ensures var x := a + b; x[|x| - 1] == b[|b| - 1] && x[..|x| - 1] == a + b[..|b| - 1]
  {
  }

  lemma Regroup(a1: string, a2: string, m: string, b1: string, b2: string)
    ensures (a1 + a2) + m + (b1 + b2) == a1 + (a2 + m + b1) + b2
  {
  }

  lemma SplitAt(s: string, k: nat)
    requires k <= |s|
    ensures s == s[..k] + s[k..]
  {
  }

  /** Whatever follows a string that is not all whitespace is untouched by `DropSpaces`. */
  lemma {:induction false} DropSpacesAppend(u: string, v: string)
    requires DropSpaces(u) != []
    ensures DropSpaces(u + v) == DropSpaces(u) + v
  {
    SplitHead(u, v);
    if IsSpace(u[0]) {
      DropSpacesAppend(u[1..], v);
    }
  }

  /** A run of whitespace in front is dropped entirely. */
  lemma {:induction false} DropSpacesOfSpaces(z: string, v: string)
    requires forall i :: 0 <= i < |z| ==> IsSpace(z[i])
    ensures DropSpaces(z + v) == DropSpaces(v)
  {
    if z != [] {
      SplitHead(z, v);
      assert forall i :: 0 <= i < |z| - 1 ==> z[1..][i] == z[i + 1];
      DropSpacesOfSpaces(z[1..], v);
    } else {
      assert z + v == v;
    }
  }

  /** A string ending in a non-space keeps that last character through `DropSpaces`. */
  lemma DropSpacesKeepsLast(u: string)
    requires u != [] && !IsSpace(u[|u| - 1])
    ensures var t := DropSpaces(u); t != [] && t[|t| - 1] == u[|u| - 1]
  {
    DropSpacesDropsSpaces(u);
  }

  /** A run of whitespace at the end is dropped entirely. */
  lemma {:induction false} TrimEndAppendSpaces(d: string, z: string)
    requires forall i :: 0 <= i < |z| ==> IsSpace(z[i])
    ensures TrimEnd(d + z) == TrimEnd(d)
    decreases |z|
  {
    if z != [] {
      SplitLast(d, z);
      TrimEndAppendSpaces(d, z[..|z| - 1]);
    } else {
      assert d + z == d;
    }
  }

  /** Whatever precedes a string that starts with a non-space is untouched by `TrimEnd`. */
  lemma {:induction false} TrimEndAppend(u: string, v: string)
    requires v != [] && !IsSpace(v[0])
    ensures TrimEnd(u + v) == u + TrimEnd(v)
    decreases |v|
  {
    SplitLast(u, v);
    if IsSpace(v[|v| - 1]) {
      var w := v[..|v| - 1];
      assert w[0] == v[0];
      TrimEndAppend(u, w);
    }
  }

  /** One step of stage 3 on a string that starts with whitespace. */
  lemma CollapseSpaceHead(s: string)
    requires s != [] && IsSpace(s[0])
    ensures CollapseSpaces(s) == [' '] + CollapseSpaces(DropSpaces(s[1..]))
  {
  }

  /** One step of stage 3 on a string that starts with a non-space. */
  lemma CollapseLetterHead(s: string)
    requires s != [] && !IsSpace(s[0])
    ensures CollapseSpaces(s) == [s[0]] + CollapseSpaces(s[1..])
  {
  }

  /**
    Stage 3 works word by word: a string that ends in a non-space is collapsed
    independently of what follows it, and its collapsed form still ends in that
    non-space.
  */
  lemma {:induction false} CollapseAppend(x: string, y: string)
    requires x != [] && !IsSpace(x[|x| - 1])
    ensures CollapseSpaces(x + y) == CollapseSpaces(x) + CollapseSpaces(y)
    ensures var c := CollapseSpaces(x); c != [] && !IsSpace(c[|c| - 1])
    decreases |x|, 1
  {
    if IsSpace(x[0]) {
      CollapseAppendSpace(x, y);
    } else {
      CollapseAppendLetter(x, y);
    }
  }

  /** `CollapseAppend` when the string starts with whitespace. */
  lemma {:induction false} CollapseAppendSpace(x: string, y: string)
    requires x != [] && !IsSpace(x[|x| - 1]) && IsSpace(x[0])
    ensures CollapseSpaces(x + y) == CollapseSpaces(x) + CollapseSpaces(y)
    ensures var c := CollapseSpaces(x); c != [] && !IsSpace(c[|c| - 1])
    decreases |x|, 0
  {
    var t := DropSpaces(x[1..]);
    DropRestAppend(x, y);
    CollapseSpaceHead(x + y);
    CollapseSpaceHead(x);
    CollapseAppend(t, y);
    ConcatAssoc([' '], CollapseSpaces(t), CollapseSpaces(y));
    SplitLast([' '], CollapseSpaces(t));
  }

  /** After a leading whitespace character, `DropSpaces` reaches into `x` and leaves `y` alone. */
  lemma DropRestAppend(x: string, y: string)
    requires x != [] && !IsSpace(x[|x| - 1]) && IsSpace(x[0])
    ensures var t := DropSpaces(x[1..]);
      && |t| < |x| && t != [] && t[|t| - 1] == x[|x| - 1]
      && (x + y) != [] && IsSpace((x + y)[0]) && DropSpaces((x + y)[1..]) == t + y
  {
    SplitHead(x, y);
    DropSpacesKeepsLast(x[1..]);
    DropSpacesAppend(x[1..], y);
  }

  /** `CollapseAppend` when the string starts with a non-space. */
  lemma {:induction false} CollapseAppendLetter(x: string, y: string)
    requires x != [] && !IsSpace(x[|x| - 1]) && !IsSpace(x[0])
    ensures CollapseSpaces(x + y) == CollapseSpaces(x) + CollapseSpaces(y)
    ensures var c := CollapseSpaces(x); c != [] && !IsSpace(c[|c| - 1])
    decreases |x|, 0
  {
    SplitHead(x, y);
    CollapseLetterHead(x + y);
    CollapseLetterHead(x);
    if |x| == 1 {
      assert x[1..] == [];
      assert CollapseSpaces(x[1..]) == [];
      assert CollapseSpaces(x) == [x[0]];
      assert x[1..] + y == y;
    } else {
      var cr := CollapseSpaces(x[1..]);
      CollapseAppend(x[1..], y);
      ConcatAssoc([x[0]], cr, CollapseSpaces(y));
      SplitLast([x[0]], cr);
    }
  }

  /** A run of whitespace becomes one space, whatever whitespace follows it. */
  lemma CollapseSpaceRun(z: string, y: string)
    requires z != [] && forall i :: 0 <= i < |z| ==> IsSpace(z[i])
    ensures CollapseSpaces(z + y) == [' '] + CollapseSpaces(DropSpaces(y))
  {
    SplitHead(z, y);
    CollapseSpaceHead(z + y);
    assert forall i :: 0 <= i < |z| - 1 ==> z[1..][i] == z[i + 1];
    DropSpacesOfSpaces(z[1..], y);
  }

  /**
    Stage 3 on its own: the whitespace between a word that ends in a
    non-space and one that starts with a non-space becomes exactly one
    space, and each side is collapsed on its own.
  */
  lemma CollapseSeparates(x: string, w: string, y: string)
    requires x != [] && !IsSpace(x[|x| - 1])
    requires w != [] && forall i :: 0 <= i < |w| ==> IsSpace(w[i])
    requires y == [] || !IsSpace(y[0])
    ensures CollapseSpaces(x + w + y) == CollapseSpaces(x) + [' '] + CollapseSpaces(y)
  {
    CollapseSpaceRun(w, y);
    assert DropSpaces(y) == y;
    CollapseAppend(x, w + y);
    ConcatAssoc(x, w, y);
    ConcatAssoc(CollapseSpaces(x), [' '], CollapseSpaces(y));
  }

  /** Stage 2 distributes over concatenation and keeps whitespace. */
  lemma CleanAround(a: string, w: char, b: string)
    requires IsSpace(w)
    ensures KeepLettersAndSpaces(a + [w] + b)
         == KeepLettersAndSpaces(a) + [w] + KeepLettersAndSpaces(b)
  {
    KeepAppend(a + [w], b);
    KeepAppend(a, [w]);
    assert KeepLettersAndSpaces([w]) == [w] by {
      assert [w][1..] == [];
    }
  }

  /** `Normalize` with stage 1 left out, which stage 2 subsumes. */
  lemma NormalizeUnstripped(s: string)
    ensures Normalize(s) == Trim(CollapseSpaces(KeepLettersAndSpaces(s)))
  {
    StripHarakatRedundant(s);
  }

  /**
    Words separated by whitespace stay separated by exactly one space:
    normalising `a`, any whitespace character, then `b` gives the normal
    form of `a`, one space, and the normal form of `b`, provided each side
    holds a letter.
  */
  lemma NormalizeSeparatesWords(a: string, w: char, b: string)
    requires IsSpace(w) && Letters(a) != [] && Letters(b) != []
    ensures Normalize(a + [w] + b) == Normalize(a) + [' '] + Normalize(b)
  {
    NormalizeUnstripped(a);
    NormalizeUnstripped(b);
    NormalizeUnstripped(a + [w] + b);
    CleanAround(a, w, b);
    LettersKeep(a);
    LettersKeep(b);
    TrimCollapseSeparates(KeepLettersAndSpaces(a), w, KeepLettersAndSpaces(b));
  }

  /** Stages 3 and 4 together separate two words by exactly one space. */
  lemma TrimCollapseSeparates(ka: string, w: char, kb: string)
    requires IsSpace(w) && Letters(ka) != [] && Letters(kb) != []
    ensures Trim(CollapseSpaces(ka + [w] + kb))
         == Trim(CollapseSpaces(ka)) + [' '] + Trim(CollapseSpaces(kb))
  {
    var wa, za, zb, wb := WordsAround(ka, kb);
    var gap := za + [w] + zb;
    GapOfSpaces(za, w, zb);
    Regroup(wa, za, [w], zb, wb);
    CollapseSeparates(wa, gap, wb);
    NormalizeSides(wa, za, zb, wb);
  }

  lemma GapOfSpaces(za: string, w: char, zb: string)
    requires forall i :: 0 <= i < |za| ==> IsSpace(za[i])
    requires IsSpace(w)
    requires forall i :: 0 <= i < |zb| ==> IsSpace(zb[i])
    ensures var gap := za + [w] + zb; gap != [] && forall i :: 0 <= i < |gap| ==> IsSpace(gap[i])
  {
    var gap := za + [w] + zb;
    forall i | 0 <= i < |gap| ensures IsSpace(gap[i]) {
      if i < |za| {
        assert gap[i] == za[i];
      } else if i > |za| {
        assert gap[i] == zb[i - |za| - 1];
      }
    }
  }

  /**
    Splits the cleaned sides: `ka` into a word and its trailing whitespace,
    `kb` into its leading whitespace and a word.
  */
  lemma WordsAround(ka: string, kb: string) returns (wa: string, za: string, zb: string, wb: string)
    requires Letters(ka) != [] && Letters(kb) != []
    ensures ka == wa + za && kb == zb + wb
    ensures wa != [] && !IsSpace(wa[|wa| - 1]) && wb != [] && !IsSpace(wb[0])
    ensures forall i :: 0 <= i < |za| ==> IsSpace(za[i])
    ensures forall i :: 0 <= i < |zb| ==> IsSpace(zb[i])
  {
    wa, za := WordThenSpaces(ka);
    zb, wb := SpacesThenWord(kb);
  }

  /** A string with a letter is a word ending in a non-space, then whitespace. */
  lemma WordThenSpaces(ka: string) returns (wa: string, za: string)
    requires Letters(ka) != []
    ensures ka == wa + za
    ensures wa != [] && !IsSpace(wa[|wa| - 1])
    ensures forall i :: 0 <= i < |za| ==> IsSpace(za[i])
  {
    wa := TrimEnd(ka);
    za := ka[|wa|..];
    SplitAt(ka, |wa|);
    assert wa != [] by {
      LettersTrimEnd(ka);
    }
    TrimEndDropsSpaces(ka);
    assert forall i :: 0 <= i < |za| ==> za[i] == ka[|wa| + i];
  }

  /** A string with a letter is whitespace, then a word starting with a non-space. */
  lemma SpacesThenWord(kb: string) returns (zb: string, wb: string)
    requires Letters(kb) != []
    ensures kb == zb + wb
    ensures wb != [] && !IsSpace(wb[0])
    ensures forall i :: 0 <= i < |zb| ==> IsSpace(zb[i])
  {
    wb := DropSpaces(kb);
    zb := kb[..|kb| - |wb|];
    DropSpacesIsSuffix(kb);
    SplitAt(kb, |kb| - |wb|);
    assert wb != [] by {
      LettersDropSpaces(kb);
    }
    DropSpacesDropsSpaces(kb);
    assert forall i :: 0 <= i < |zb| ==> zb[i] == kb[i];
  }

  /** The trimming half of `NormalizeSeparatesWords`. */
  lemma NormalizeSides(wa: string, za: string, zb: string, wb: string)
    requires wa != [] && !IsSpace(wa[|wa| - 1])
    requires forall i :: 0 <= i < |za| ==> IsSpace(za[i])
    requires forall i :: 0 <= i < |zb| ==> IsSpace(zb[i])
    requires wb != [] && !IsSpace(wb[0])
    ensures var p, q := CollapseSpaces(wa), CollapseSpaces(wb);
      Trim(CollapseSpaces(wa + za)) + [' '] + Trim(CollapseSpaces(zb + wb)) == Trim(p + [' '] + q)
  {
    var p, q := CollapseSpaces(wa), CollapseSpaces(wb);
    var d := TrimLeftWord(wa, za);
    var e := TrimRightWord(zb, wb);
    ConcatAssoc(p, [' '], q);
    DropSpacesAppend(p, [' '] + q);
    ConcatAssoc(d, [' '], q);
    TrimEndAppend(d + [' '], q);
  }

  /** The left word: trimming its collapsed form leaves `DropSpaces` of the collapsed word. */
  lemma TrimLeftWord(wa: string, za: string) returns (d: string)
    requires wa != [] && !IsSpace(wa[|wa| - 1])
    requires forall i :: 0 <= i < |za| ==> IsSpace(za[i])
    ensures d == DropSpaces(CollapseSpaces(wa)) && d != []
    ensures Trim(CollapseSpaces(wa + za)) == d
  {
    var p := CollapseSpaces(wa);
    CollapseAppend(wa, za);
    var cz := CollapseSpaces(za);
    CollapseOfSpaces(za);
    assert forall i :: 0 <= i < |cz| ==> IsSpace(cz[i]);
    d := DropSpaces(p);
    DropSpacesKeepsLast(p);
    DropSpacesAppend(p, cz);
    TrimEndAppendSpaces(d, cz);
    TrimEndOfWord(d);
  }

  /** Stage 3 turns a run of whitespace into one space, and nothing into nothing. */
  lemma CollapseOfSpaces(z: string)
    requires forall i :: 0 <= i < |z| ==> IsSpace(z[i])
    ensures CollapseSpaces(z) == if z == [] then [] else [' ']
  {
    if z != [] {
      CollapseSpaceHead(z);
      assert forall i :: 0 <= i < |z| - 1 ==> z[1..][i] == z[i + 1];
      DropAllSpaces(z[1..]);
    }
  }

  lemma {:induction false} DropAllSpaces(z: string)
    requires forall i :: 0 <= i < |z| ==> IsSpace(z[i])
    ensures DropSpaces(z) == []
  {
    if z != [] {
      assert forall i :: 0 <= i < |z| - 1 ==> z[1..][i] == z[i + 1];
      DropAllSpaces(z[1..]);
    }
  }

  lemma TrimEndOfWord(d: string)
    requires d != [] && !IsSpace(d[|d| - 1])
    ensures TrimEnd(d) == d
  {
  }

  /** The right word: trimming its collapsed form leaves `TrimEnd` of the collapsed word. */
  lemma TrimRightWord(zb: string, wb: string) returns (e: string)
    requires forall i :: 0 <= i < |zb| ==> IsSpace(zb[i])
    requires wb != [] && !IsSpace(wb[0])
    ensures e == TrimEnd(CollapseSpaces(wb))
    ensures Trim(CollapseSpaces(zb + wb)) == e
  {
    var q := CollapseSpaces(wb);
    var pre: string := if zb == [] then [] else [' '];
    if zb != [] {
      CollapseSpaceRun(zb, wb);
    } else {
      assert zb + wb == wb;
    }
    assert CollapseSpaces(zb + wb) == pre + q;
    DropSpacesOfSpaces(pre, q);
    e := TrimEnd(q);
  }
}
