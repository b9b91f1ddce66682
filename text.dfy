/**
 * The JavaScript string operations the pages rely on: white space as
 * `\s`, `trim` and `parseInt` see it, ASCII lower-casing, `includes`,
 * and `split`/`join` on a one-character separator.
 */
module Text {

  /** ECMAScript WhiteSpace and LineTerminator code points: the set `\s`, `trim` and `parseInt` skip. */
  predicate IsSpace(c: char) {
    var k := c as int;
    k == 0x09 || k == 0x0A || k == 0x0B || k == 0x0C || k == 0x0D || k == 0x20 ||
    k == 0xA0 || k == 0x1680 || (0x2000 <= k <= 0x200A) || k == 0x2028 || k == 0x2029 ||
    k == 0x202F || k == 0x205F || k == 0x3000 || k == 0xFEFF
  }

  predicate AllSpace(s: string) {
    forall i :: 0 <= i < |s| ==> IsSpace(s[i])
  }

  /** Every character of `s` at a position in `lo..hi` is white space. */
  predicate SpaceBetween(s: string, lo: int, hi: int) {
    forall i :: lo <= i < hi && 0 <= i < |s| ==> IsSpace(s[i])
  }

  predicate NoSpace(s: string) {
    forall i :: 0 <= i < |s| ==> !IsSpace(s[i])
  }

  /** `s.trimStart()`: drops the leading white space and nothing else. */
  function TrimStart(s: string): (r: string)
    ensures |r| <= |s| && r == s[|s| - |r|..]
    ensures SpaceBetween(s, 0, |s| - |r|)
    ensures r == [] || !IsSpace(r[0])
  {
    if s != [] && IsSpace(s[0]) then TrimStart(s[1..]) else s
  }

  /** `s.trimEnd()`: drops the trailing white space and nothing else. */
  function TrimEnd(s: string): (r: string)
    ensures |r| <= |s| && r == s[..|r|]
    ensures SpaceBetween(s, |r|, |s|)
    ensures r == [] || !IsSpace(r[|r| - 1])
  {
    if s != [] && IsSpace(s[|s| - 1]) then TrimEnd(s[..|s| - 1]) else s
  }

  /** `s.trim()`. */
  function Trim(s: string): string {
    TrimEnd(TrimStart(s))
  }

  /**
   * `s.length`: JavaScript counts UTF-16 code units, so a character beyond
   * the Basic Multilingual Plane (an emoji, say) counts twice.
   */
  function Utf16Length(s: string): nat {
    CodeUnits(s, |s|)
  }

  /** The code units of the first `k` characters. */
  function CodeUnits(s: string, k: nat): nat
    requires k <= |s|
  {
    if k == 0 then 0 else CodeUnits(s, k - 1) + (if s[k - 1] as int < 0x1_0000 then 1 else 2)
  }

  /** Each character is one or two code units, so only the empty text has length 0. */
  lemma Utf16LengthBounds(s: string)
    ensures |s| <= Utf16Length(s) <= 2 * |s|
  {
    CodeUnitsBounds(s, |s|);
  }

  lemma {:induction false} CodeUnitsBounds(s: string, k: nat)
    requires k <= |s|
    ensures k <= CodeUnits(s, k) <= 2 * k
  {
    if k > 0 {
      CodeUnitsBounds(s, k - 1);
    }
  }

  /** A text of Basic Multilingual Plane characters (ASCII, say) has one code unit per character. */
  lemma Utf16LengthOfBmp(s: string)
    requires forall i :: 0 <= i < |s| ==> s[i] as int < 0x1_0000
    ensures Utf16Length(s) == |s|
  {
    CodeUnitsOfBmp(s, |s|);
  }

  lemma {:induction false} CodeUnitsOfBmp(s: string, k: nat)
    requires k <= |s|
    requires forall i :: 0 <= i < |s| ==> s[i] as int < 0x1_0000
    ensures CodeUnits(s, k) == k
  {
    if k > 0 {
      CodeUnitsOfBmp(s, k - 1);
    }
  }

  /** Each astral character adds two code units. */
  lemma Utf16LengthOfEmoji()
    ensures |"\U{1F389}\U{1F389}"| == 2 && Utf16Length("\U{1F389}\U{1F389}") == 4
  {
    var s := "\U{1F389}\U{1F389}";
    assert CodeUnits(s, 1) == 2;
  }

  /** The trimmed string is a contiguous piece of `s`, starting where the leading white space ends. */
  lemma TrimIsPiece(s: string)
    ensures var k := |s| - |TrimStart(s)|;
      k + |Trim(s)| <= |s| && Trim(s) == s[k..k + |Trim(s)|]
  {
    PrefixOfSuffix(s, TrimStart(s), Trim(s));
  }

  /** A prefix of a suffix of `s` is a slice of `s`. */
  lemma PrefixOfSuffix(s: string, t: string, r: string)
    requires |t| <= |s| && t == s[|s| - |t|..] && |r| <= |t| && r == t[..|r|]
    ensures var k := |s| - |t|; k + |r| <= |s| && r == s[k..k + |r|]
  {
  }

  /** What trimming drops on either side of that piece is white space. */
  lemma TrimDropsOnlySpace(s: string)
    ensures var k := |s| - |TrimStart(s)|;
      SpaceBetween(s, 0, k) && SpaceBetween(s, k + |Trim(s)|, |s|)
  {
    var t := TrimStart(s);
    var r := TrimEnd(t);
    var k := |s| - |t|;
    assert t == s[k..];
    forall i | k + |r| <= i < |s| ensures IsSpace(s[i]) {
      assert s[i] == t[i - k];
    }
  }

  /** A trimmed string neither starts nor ends with white space. */
  lemma TrimEnds(s: string)
    ensures Trim(s) == [] || (!IsSpace(Trim(s)[0]) && !IsSpace(Trim(s)[|Trim(s)| - 1]))
  {
    var t := TrimStart(s);
    var r := TrimEnd(t);
    if r != [] {
      assert r[0] == t[0];
    }
  }

  /** A string trims to nothing exactly when it is all white space. */
  lemma TrimEmptyIffAllSpace(s: string)
    ensures Trim(s) == [] <==> AllSpace(s)
  {
    var t := TrimStart(s);
    if t == [] {
    } else {
      assert t == t[0..];
      assert s[|s| - |t|] == t[0];
    }
  }

  /** Trimming keeps out a character the text does not hold. */
  lemma TrimKeepsOut(s: string, c: char)
    requires c !in s
    ensures c !in Trim(s)
  {
    TrimIsPiece(s);
  }

  /** Trimming twice is trimming once. */
  lemma TrimIdempotent(s: string)
    ensures Trim(Trim(s)) == Trim(s)
  {
  }

  /** ASCII `toLowerCase` on one character. */
  function LowerChar(c: char): char {
    if 'A' <= c <= 'Z' then (c as int + 32) as char else c
  }

  /** `s.toLowerCase()`, restricted to ASCII letters. */
  function ToLower(s: string): (r: string)
    ensures |r| == |s|
    ensures forall i :: 0 <= i < |s| ==> r[i] == LowerChar(s[i])
  {
    seq(|s|, i requires 0 <= i < |s| => LowerChar(s[i]))
  }

  /** `hay.includes(needle)`: `needle` occurs somewhere in `hay`. */
  predicate Includes(hay: string, needle: string) {
    needle <= hay || (hay != [] && Includes(hay[1..], needle))
  }

  /** Every string includes the empty string. */
  lemma IncludesEmpty(hay: string)
    ensures Includes(hay, "")
  {
  }

  /** `Includes` means an occurrence at some position. */
  lemma IncludesAt(hay: string, needle: string)
    ensures Includes(hay, needle) <==>
      exists i {:trigger hay[i..]} :: 0 <= i <= |hay| - |needle| && needle <= hay[i..]
  {
    if Includes(hay, needle) {
      var i := IncludesWitness(hay, needle);
    }
    if exists i {:trigger hay[i..]} :: 0 <= i <= |hay| - |needle| && needle <= hay[i..] {
      var i :| 0 <= i <= |hay| - |needle| && needle <= hay[i..];
      OccurrenceIncludes(hay, needle, i);
    }
  }

  /** An inclusion has a position. */
  lemma {:induction false} IncludesWitness(hay: string, needle: string) returns (i: int)
    requires Includes(hay, needle)
    ensures 0 <= i <= |hay| - |needle| && needle <= hay[i..]
  {
    if needle <= hay {
      assert hay[0..] == hay;
      i := 0;
    } else {
      var k := IncludesWitness(hay[1..], needle);
      assert hay[1..][k..] == hay[k + 1..];
      i := k + 1;
    }
  }

  /** An occurrence at position `i` is an inclusion. */
  lemma {:induction false} OccurrenceIncludes(hay: string, needle: string, i: int)
    requires 0 <= i <= |hay| - |needle| && needle <= hay[i..]
    ensures Includes(hay, needle)
    decreases i
  {
    if i == 0 {
      assert hay[0..] == hay;
    } else {
      assert hay[1..][i - 1..] == hay[i..];
      OccurrenceIncludes(hay[1..], needle, i - 1);
    }
  }

  /** `s.replace(pat, rep)` with a string pattern: only the first occurrence is replaced. */
  function ReplaceFirst(s: string, pat: string, rep: string): string
    decreases |s|
  {
    if pat <= s then rep + s[|pat|..]
    else if s == [] then []
    else [s[0]] + ReplaceFirst(s[1..], pat, rep)
  }

  /** With its first occurrence at `i`, the pattern is replaced there and everything else is kept. */
  lemma {:induction false} ReplaceFirstAt(s: string, pat: string, rep: string, i: int)
    requires 0 <= i <= |s| - |pat| && pat <= s[i..]
    requires forall j :: 0 <= j < i ==> !(pat <= s[j..])
    ensures ReplaceFirst(s, pat, rep) == s[..i] + rep + s[i + |pat|..]
  {
    if i == 0 {
      assert s[0..] == s;
    } else {
      assert !(pat <= s) by { assert s[0..] == s; }
      var t := s[1..];
      assert ReplaceFirst(s, pat, rep) == [s[0]] + ReplaceFirst(t, pat, rep);
      assert t[i - 1..] == s[i..];
      NoEarlierInTail(s, pat, i);
      ReplaceFirstAt(t, pat, rep, i - 1);
      ConsAround(s, rep, i, i + |pat|);
    }
  }

  /** No occurrence before `i` in `s` means none before `i - 1` in its tail. */
  lemma NoEarlierInTail(s: string, pat: string, i: int)
    requires 1 <= i <= |s|
    requires forall j :: 0 <= j < i ==> !(pat <= s[j..])
    ensures forall j :: 0 <= j < i - 1 ==> !(pat <= s[1..][j..])
  {
    forall j | 0 <= j < i - 1
      ensures !(pat <= s[1..][j..])
    {
      assert s[1..][j..] == s[j + 1..];
    }
  }

  /** Putting back the first character of a replaced string. */
  lemma ConsAround(s: string, rep: string, i: int, k: int)
    requires 1 <= i <= k <= |s|
    ensures [s[0]] + (s[1..][..i - 1] + rep + s[1..][k - 1..]) == s[..i] + rep + s[k..]
  {
    assert [s[0]] + s[1..][..i - 1] == s[..i];
    assert s[1..][k - 1..] == s[k..];
  }

  /** Without an occurrence nothing changes. */
  lemma {:induction false} ReplaceFirstAbsent(s: string, pat: string, rep: string)
    requires !Includes(s, pat)
    ensures ReplaceFirst(s, pat, rep) == s
  {
    if s != [] {
      ReplaceFirstAbsent(s[1..], pat, rep);
    }
  }

  /** A leading occurrence is the one replaced. */
  lemma ReplaceFirstPrefix(s: string, pat: string, rep: string)
    requires pat <= s
    ensures ReplaceFirst(s, pat, rep) == rep + s[|pat|..]
  {
    ReplaceFirstAt(s, pat, rep, 0);
  }

  /** `s.split(sep)` for a one-character separator: the pieces between separators, at least one. */
  function Split(s: string, sep: char): (parts: seq<string>)
    ensures |parts| >= 1
    ensures forall i :: 0 <= i < |parts| ==> sep !in parts[i]
  {
    if s == [] then [[]]
    else
      var rest := Split(s[1..], sep);
      if s[0] == sep then [[]] + rest
      else [[s[0]] + rest[0]] + rest[1..]
  }

  /** `parts.join(sep)`. */
  function Join(parts: seq<string>, sep: char): string
    requires |parts| >= 1
  {
    if |parts| == 1 then parts[0] else parts[0] + [sep] + Join(parts[1..], sep)
  }

  /** Joining the pieces of a split gives back the string. */
  lemma {:induction false} JoinSplit(s: string, sep: char)
    ensures Join(Split(s, sep), sep) == s
  {
    if s != [] {
      JoinSplit(s[1..], sep);
      var rest := Split(s[1..], sep);
      var parts := Split(s, sep);
      if s[0] == sep {
        assert parts[1..] == rest;
      } else if |rest| == 1 {
        assert parts == [[s[0]] + rest[0]];
      } else {
        assert parts[1..] == rest[1..];
        assert Join(rest, sep) == rest[0] + [sep] + Join(rest[1..], sep);
      }
    }
  }

  /** A string without the separator splits into itself. */
  lemma {:induction false} SplitNoSeparator(a: string, sep: char)
    requires sep !in a
    ensures Split(a, sep) == [a]
  {
    if a != [] {
      assert a[1..] + [] == a[1..];
      SplitNoSeparator(a[1..], sep);
      assert [a[0]] + a[1..] == a;
    }
  }

  /** Splitting stops at the first separator. */
  lemma {:induction false} SplitAtFirst(a: string, sep: char, b: string)
    requires sep !in a
    ensures Split(a + [sep] + b, sep) == [a] + Split(b, sep)
  {
    var s := a + [sep] + b;
    if a == [] {
      assert s[1..] == b;
    } else {
      assert s[1..] == a[1..] + [sep] + b;
      SplitAtFirst(a[1..], sep, b);
      assert [a[0]] + a[1..] == a;
    }
  }

  /** Splitting a join of separator-free pieces gives back the pieces. */
  lemma {:induction false} SplitJoin(parts: seq<string>, sep: char)
    requires |parts| >= 1
    requires forall i :: 0 <= i < |parts| ==> sep !in parts[i]
    ensures Split(Join(parts, sep), sep) == parts
  {
    if |parts| == 1 {
      SplitNoSeparator(parts[0], sep);
    } else {
      SplitJoin(parts[1..], sep);
      SplitAtFirst(parts[0], sep, Join(parts[1..], sep));
      assert [parts[0]] + parts[1..] == parts;
    }
  }

  /** The first piece of a split is the part of `s` before its first separator. */
  lemma {:induction false} FirstPiece(s: string, sep: char)
    ensures var p := Split(s, sep)[0];
      |p| <= |s| && p == s[..|p|] && (|p| < |s| ==> s[|p|] == sep) && (|p| == |s| ==> sep !in s)
  {
    if s != [] {
      FirstPiece(s[1..], sep);
    }
  }
}
