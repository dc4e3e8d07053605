/**
  The string and number rules of `handleAyahChange` (src/app/page.js:74-97):
  a verse key "<surah>:<ayah>" is split at the colon, the ayah part is read
  with JavaScript's `parseInt` and range-checked, and both parts are
  left-padded with '0' to width 3 to name the recitation's audio file.
*/
module VerseKey {
  import opened Wrappers
  import ArabicText

  // ---------------------------------------------------------------------------
  // String.prototype.split with a one-character separator

  /** `s.split(sep)`: the pieces between separators, in order; never an empty list. */
  function Split(s: string, sep: char): (parts: seq<string>)
    ensures |parts| >= 1
    ensures forall k :: 0 <= k < |parts| ==> sep !in parts[k]
  {
    if s == [] then [[]]
    else
      var rest := Split(s[1..], sep);
      if s[0] == sep then [[]] + rest
      else [[s[0]] + rest[0]] + rest[1..]
  }

  /** `parts.join(sep)`. */
  function Join(parts: seq<string>, sep: char): string
    requires |parts| >= 1
  {
    if |parts| == 1 then parts[0]
    else parts[0] + [sep] + Join(parts[1..], sep)
  }

  /** Joining the pieces back gives the original string. */
  lemma {:induction false} JoinSplit(s: string, sep: char)
    ensures Join(Split(s, sep), sep) == s
  {
    if s != [] {
      JoinSplit(s[1..], sep);
      var rest := Split(s[1..], sep);
      if s[0] != sep && |rest| > 1 {
        assert ([[s[0]] + rest[0]] + rest[1..])[1..] == rest[1..];
      }
    }
  }

  /** Splitting a join of separator-free pieces gives the pieces back. */
  lemma {:induction false} SplitJoin(parts: seq<string>, sep: char)
    requires |parts| >= 1
    requires forall k :: 0 <= k < |parts| ==> sep !in parts[k]
    ensures Split(Join(parts, sep), sep) == parts
    decreases |parts|, |parts[0]|
  {
    var p := parts[0];
    if p == [] {
      if |parts| > 1 {
        SplitJoin(parts[1..], sep);
        var j := Join(parts, sep);
        assert j == [sep] + Join(parts[1..], sep);
        assert j[1..] == Join(parts[1..], sep);
        assert parts == [[]] + parts[1..];
      }
    } else {
      var tail := [p[1..]] + parts[1..];
      assert tail[1..] == parts[1..];
      SplitJoin(tail, sep);
      var j := Join(parts, sep);
      if |parts| == 1 {
        assert j[1..] == Join(tail, sep);
      } else {
        assert j == [p[0]] + (p[1..] + [sep] + Join(parts[1..], sep));
        assert j[1..] == Join(tail, sep);
      }
      assert j[0] == p[0] && p[0] != sep;
      assert [p[0]] + tail[0] == p;
      assert parts == [[p[0]] + tail[0]] + tail[1..];
    }
  }

  /**
    `const [surah, ayah] = ayahKey.split(":")`. Pieces after the second are
    ignored; a key without a colon leaves `ayah` undefined (None).
  */
  function KeyParts(key: string): (r: (string, Option<string>))
    ensures ':' !in r.0
    ensures r.1.Some? ==> ':' !in r.1.value
    ensures r.1.None? <==> ':' !in key
  {
    var parts := Split(key, ':');
    SplitHasNoPiecesWithoutColon(key);
    (parts[0], if |parts| >= 2 then Some(parts[1]) else None)
  }

  /** There is more than one piece exactly when the separator occurs. */
  lemma {:induction false} SplitHasNoPiecesWithoutColon(s: string)
    ensures |Split(s, ':')| == 1 <==> ':' !in s
  {
    if s != [] {
      SplitHasNoPiecesWithoutColon(s[1..]);
      assert s == [s[0]] + s[1..];
    }
  }

  /** The key of ayah `a` of surah `s`, as the verse list spells it. */
  lemma KeyPartsOfKey(surah: string, ayah: string)
    requires ':' !in surah && ':' !in ayah
    ensures KeyParts(surah + ":" + ayah) == (surah, Some(ayah))
  {
    assert surah + ":" + ayah == Join([surah, ayah], ':');
    SplitJoin([surah, ayah], ':');
  }

  // ---------------------------------------------------------------------------
  // parseInt with no radix argument

  /** The value of a digit character in bases up to 36; 36 for anything else. */
  function DigitValue(c: char): (v: nat)
    ensures v <= 36
  {
    if '0' <= c <= '9' then (c as int) - ('0' as int)
    else if 'a' <= c <= 'z' then (c as int) - ('a' as int) + 10
    else if 'A' <= c <= 'Z' then (c as int) - ('A' as int) + 10
    else 36
  }

  predicate IsDecimal(c: char) {
    '0' <= c <= '9'
  }

  predicate AllDecimal(s: string) {
    forall i :: 0 <= i < |s| ==> IsDecimal(s[i])
  }

  lemma DecimalHasNoColon(d: string)
    requires AllDecimal(d)
    ensures ':' !in d
  {
    forall i | 0 <= i < |d|
      ensures d[i] != ':'
    {
      assert IsDecimal(d[i]);
    }
  }

  /** The longest prefix of `s` made of digits of the given radix. */
  function DigitPrefix(s: string, radix: nat): (r: string)
    ensures |r| <= |s| && r == s[..|r|]
    ensures forall i :: 0 <= i < |r| ==> DigitValue(r[i]) < radix
    ensures |r| < |s| ==> DigitValue(s[|r|]) >= radix
  {
    if s != [] && DigitValue(s[0]) < radix then [s[0]] + DigitPrefix(s[1..], radix) else []
  }

  /** The number a string of digits denotes, most significant digit first. */
  function Value(ds: string, radix: nat): nat {
    if ds == [] then 0
    else Value(ds[..|ds| - 1], radix) * radix + DigitValue(ds[|ds| - 1])
  }

  /**
    `parseInt(s)`: skip leading whitespace, take an optional sign, a "0x" or
    "0X" prefix switches to base 16, and the longest run of digits is read.
    None stands for NaN: no digit at all.
  */
  function ParseInt(s: string): Option<int> {
    var t := ArabicText.DropSpaces(s);
    var negative := t != [] && t[0] == '-';
    var u := if t != [] && (t[0] == '-' || t[0] == '+') then t[1..] else t;
    var hex := |u| >= 2 && u[0] == '0' && (u[1] == 'x' || u[1] == 'X');
    var radix := if hex then 16 else 10;
    var ds := DigitPrefix(if hex then u[2..] else u, radix);
    var v: int := Value(ds, radix);
    if ds == [] then None else Some(if negative then -v else v)
  }

  lemma {:induction false} DigitPrefixOfDecimal(d: string)
    requires AllDecimal(d)
    ensures DigitPrefix(d, 10) == d
  {
    if d != [] {
      DigitPrefixOfDecimal(d[1..]);
    }
  }

  /** A non-empty string of decimal digits parses to its value. */
  lemma ParseDecimal(d: string)
    requires d != [] && AllDecimal(d)
    ensures ParseInt(d) == Some(Value(d, 10))
  {
    assert !ArabicText.IsSpace(d[0]) && d[0] != '-' && d[0] != '+';
    assert ArabicText.DropSpaces(d) == d;
    assert |d| >= 2 ==> d[1] != 'x' && d[1] != 'X';
    DigitPrefixOfDecimal(d);
  }

  /** Text that starts with anything but whitespace, a sign or a digit is NaN. */
  lemma ParseNotANumber(s: string)
    requires s != [] && DigitValue(s[0]) >= 10
    requires !ArabicText.IsSpace(s[0]) && s[0] != '-' && s[0] != '+'
    ensures ParseInt(s) == None
  {
  }

  /**
    The guard of line 80: the handler stops when the ayah number is below 1
    or above the number of loaded ayahs. NaN fails both comparisons, so an
    ayah part without digits, or a missing one, is not stopped here.
  */
  predicate OutOfRange(ayah: Option<string>, total: nat) {
    match ayah
    case None => false
    case Some(a) =>
      match ParseInt(a)
      case None => false
      case Some(n) => n < 1 || n > total
  }

  /** For a number written in decimal digits the guard is exactly the range 1..total. */
  lemma OutOfRangeDecimal(d: string, total: nat)
    requires d != [] && AllDecimal(d)
    ensures OutOfRange(Some(d), total) <==> !(1 <= Value(d, 10) <= total)
  {
    ParseDecimal(d);
  }

  // ---------------------------------------------------------------------------
  // String.prototype.padStart and the audio URL

  /** `n` copies of `c`. */
  function Repeat(c: char, n: nat): (r: string)
    ensures |r| == n
    ensures forall i :: 0 <= i < n ==> r[i] == c
  {
    if n == 0 then [] else [c] + Repeat(c, n - 1)
  }

  /**
    `s.padStart(width, fill)` with a one-character fill: strings shorter than
    `width` get copies of `fill` in front up to that length; longer ones are
    returned as they are.
  */
  function PadStart(s: string, width: nat, fill: char): (r: string)
    ensures |r| == if |s| < width then width else |s|
    ensures forall i :: 0 <= i < |r| - |s| ==> r[i] == fill
    ensures |s| >= width ==> r == s
  {
    if |s| >= width then s else Repeat(fill, width - |s|) + s
  }

  /** The padded string ends with the original one. */
  lemma PadStartSuffix(s: string, width: nat, fill: char)
    ensures var r := PadStart(s, width, fill); r[|r| - |s|..] == s
  {
  }

  function Pad3(s: string): string {
    PadStart(s, 3, '0')
  }

  /** A leading zero does not change a number. */
  lemma {:induction false} LeadingZero(d: string)
    ensures Value(['0'] + d, 10) == Value(d, 10)
  {
    if d != [] {
      var z := ['0'] + d;
      assert z[..|z| - 1] == ['0'] + d[..|d| - 1];
      LeadingZero(d[..|d| - 1]);
    }
  }

  /** Any number of leading zeros does not change a number. */
  lemma {:induction false} LeadingZeros(n: nat, d: string)
    ensures Value(Repeat('0', n) + d, 10) == Value(d, 10)
  {
    if n > 0 {
      var rest := Repeat('0', n - 1) + d;
      assert Repeat('0', n) == ['0'] + Repeat('0', n - 1);
      assert Repeat('0', n) + d == ['0'] + rest;
      LeadingZero(rest);
      LeadingZeros(n - 1, d);
    } else {
      assert Repeat('0', n) + d == d;
    }
  }

  /** Padding with zeros keeps a digit string a digit string of the same value. */
  lemma PadStartKeepsValue(d: string, width: nat)
    requires AllDecimal(d)
    ensures AllDecimal(PadStart(d, width, '0'))
    ensures Value(PadStart(d, width, '0'), 10) == Value(d, 10)
  {
    if |d| < width {
      LeadingZeros(width - |d|, d);
    }
  }

  /** The recitation the player streams: Abdul Basit, mujawwad style. */
  const AudioBase: string := "https://verses.quran.com/AbdulBaset/Mujawwad/mp3/"

  /** Line 93: the base, the padded surah, the padded ayah and ".mp3". */
  function AudioUrl(surah: string, ayah: string): string {
    AudioBase + Pad3(surah) + Pad3(ayah) + ".mp3"
  }

  /** Surah 2, ayah 5 is the file 002005.mp3. */
  lemma AudioUrlExample()
    ensures AudioUrl("2", "5") == AudioBase + "002005.mp3"
    ensures AudioUrl("114", "6") == AudioBase + "114006.mp3"
  {
  }

  /** For one-digit numbers the file name is "00", the surah, "00", the ayah. */
  lemma AudioUrlOneDigit(surah: string, ayah: string)
    requires |surah| == 1 && |ayah| == 1
    ensures AudioUrl(surah, ayah) == AudioBase + (['0', '0', surah[0], '0', '0', ayah[0]] + ".mp3")
  {
    assert Pad3(surah) == ['0', '0', surah[0]];
    assert Pad3(ayah) == ['0', '0', ayah[0]];
  }

  /**
    For surah and ayah numbers of one to three decimal digits, the file name
    is six digits whose first three read back as the surah number and whose
    last three read back as the ayah number.
  */
  lemma AudioUrlDecodes(surah: string, ayah: string)
    requires 1 <= |surah| <= 3 && AllDecimal(surah)
    requires 1 <= |ayah| <= 3 && AllDecimal(ayah)
    ensures var u := AudioUrl(surah, ayah); var b := |AudioBase|;
      && |u| == b + 10
      && u[..b] == AudioBase
      && AllDecimal(u[b..b + 6])
      && Value(u[b..b + 3], 10) == Value(surah, 10)
      && Value(u[b + 3..b + 6], 10) == Value(ayah, 10)
      && u[b + 6..] == ".mp3"
  {
    PadStartKeepsValue(surah, 3);
    PadStartKeepsValue(ayah, 3);
    FourPieces(AudioBase, Pad3(surah), Pad3(ayah), ".mp3");
  }

  lemma FourPieces(w: string, x: string, y: string, z: string)
    requires |x| == 3 && |y| == 3
    ensures var u := w + x + y + z; var b := |w|;
      && |u| == b + 6 + |z|
      && u[..b] == w && u[b..b + 3] == x && u[b + 3..b + 6] == y && u[b + 6..] == z
  {
  }

  /** Different verses never share an audio file. */
  lemma AudioUrlInjective(s1: string, a1: string, s2: string, a2: string)
    requires 1 <= |s1| <= 3 && AllDecimal(s1) && 1 <= |a1| <= 3 && AllDecimal(a1)
    requires 1 <= |s2| <= 3 && AllDecimal(s2) && 1 <= |a2| <= 3 && AllDecimal(a2)
    requires AudioUrl(s1, a1) == AudioUrl(s2, a2)
    ensures Value(s1, 10) == Value(s2, 10) && Value(a1, 10) == Value(a2, 10)
  {
    AudioUrlDecodes(s1, a1);
    AudioUrlDecodes(s2, a2);
  }

  // ---------------------------------------------------------------------------
  // The commentary request

  /** The commentary set the player asks for (line 96). */
  const TafseerId: string := "1"

  /** The commentary service's endpoint. */
  const TafsirBase: string := "http://api.quran-tafseer.com/tafseer/"

  /** Line 97: the commentary of one verse, asked for as the range ayah..ayah. */
  function TafsirUrl(surah: string, ayah: string): string {
    TafsirBase + TafseerId + "/" + surah + "/" + ayah + "/" + ayah
  }

  /**
    After the endpoint, the request path names the commentary set, the surah,
    and the ayah as both ends of the range.
  */
  lemma TafsirUrlSegments(surah: string, ayah: string)
    requires '/' !in surah && '/' !in ayah
    ensures var u := TafsirUrl(surah, ayah);
      && u[..|TafsirBase|] == TafsirBase
      && Split(u[|TafsirBase|..], '/') == [TafseerId, surah, ayah, ayah]
  {
    var parts := [TafseerId, surah, ayah, ayah];
    assert parts[1..] == [surah, ayah, ayah] && parts[2..] == [ayah, ayah] && parts[3..] == [ayah];
    assert Join(parts[2..], '/') == ayah + "/" + ayah;
    assert Join(parts[1..], '/') == surah + "/" + ayah + "/" + ayah;
    assert Join(parts, '/') == TafseerId + "/" + surah + "/" + ayah + "/" + ayah;
    var u := TafsirUrl(surah, ayah);
    assert u == TafsirBase + Join(parts, '/');
    assert u[|TafsirBase|..] == Join(parts, '/');
    SplitJoin(parts, '/');
  }
}
