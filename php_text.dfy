/**
 * The PHP string built-ins that the modelled code relies on, over `seq<char>`:
 * `trim`, `strtolower`, `empty` on strings, `explode` (with and without a limit of 2),
 * `str_replace` and the `substr(...) == prefix` test.
 */
module PhpText {
  import opened Wrappers

  /** The characters PHP's `trim` removes by default: " \t\n\r\0\x0B". */
  predicate IsTrimChar(c: char) {
    c == ' ' || c == '\t' || c == '\n' || c == '\r' || c == '\0' || c == 11 as char
  }

  /** A string with no trimmable character at either end. */
  predicate Trimmed(s: string) {
    s == [] || (!IsTrimChar(s[0]) && !IsTrimChar(s[|s| - 1]))
  }

  /** PHP `ltrim`: drops leading trimmable characters, and only those. */
  function TrimLeft(s: string): (r: string)
    ensures |r| <= |s| && r == s[|s| - |r|..]
    ensures r == [] || !IsTrimChar(r[0])
    ensures forall i :: 0 <= i < |s| - |r| ==> IsTrimChar(s[i])
  {
    if s != [] && IsTrimChar(s[0]) then TrimLeft(s[1..]) else s
  }

  /** PHP `rtrim`: drops trailing trimmable characters, and only those. */
  function TrimRight(s: string): (r: string)
    ensures |r| <= |s| && r == s[..|r|]
    ensures r == [] || !IsTrimChar(r[|r| - 1])
    ensures forall i :: |r| <= i < |s| ==> IsTrimChar(s[i])
  {
    if s != [] && IsTrimChar(s[|s| - 1]) then TrimRight(s[..|s| - 1]) else s
  }

  /** PHP `trim`: the result has no trimmable character at either end, and a string
      that already has none is returned unchanged. */
  function Trim(s: string): (r: string)
    ensures Trimmed(r) && |r| <= |s|
    ensures Trimmed(s) ==> r == s
  {
    var l := TrimLeft(s);
    var r := TrimRight(l);
    assert r != [] ==> r[0] == l[0];
    r
  }

  /** `trim` only cuts: its result is a contiguous part of the input, and everything cut
      off before and after it is trimmable. */
  lemma TrimCutsEnds(s: string)
    ensures exists i, j :: 0 <= i <= j <= |s| && Trim(s) == s[i..j] &&
              (forall k :: 0 <= k < i ==> IsTrimChar(s[k])) &&
              (forall k :: j <= k < |s| ==> IsTrimChar(s[k]))
  {
    var l := TrimLeft(s);
    var r := TrimRight(l);
    var i := |s| - |l|;
    SliceOfSuffix(s, i, |r|);
    forall k | i + |r| <= k < |s|
      ensures IsTrimChar(s[k])
    {
      SuffixIndex(s, i, k);
    }
  }

  /** A prefix of a suffix is a slice. */
  lemma SliceOfSuffix(s: string, i: nat, n: nat)
    requires i + n <= |s|
    ensures s[i..][..n] == s[i..i + n]
  {
  }

  /** Indexing into a suffix. */
  lemma SuffixIndex(s: string, i: nat, k: nat)
    requires i <= k < |s|
    ensures s[i..][k - i] == s[k]
  {
  }

  /** ASCII lower-casing of one character (PHP `strtolower` in the "C" locale). */
  function LowerChar(c: char): char {
    if 'A' <= c <= 'Z' then (c as int + 32) as char else c
  }

  predicate IsUpper(c: char) {
    'A' <= c <= 'Z'
  }

  /** PHP `strtolower`: same length, every character lower-cased, no upper-case left. */
  function ToLower(s: string): (r: string)
    ensures |r| == |s|
    ensures forall i :: 0 <= i < |s| ==> r[i] == LowerChar(s[i])
    ensures forall i :: 0 <= i < |r| ==> !IsUpper(r[i])
  {
    seq(|s|, i requires 0 <= i < |s| => LowerChar(s[i]))
  }

  /** PHP `empty()` on a string: true for "" and for "0". */
  predicate IsEmpty(s: string) {
    s == "" || s == "0"
  }

  /** PHP `empty()` on a possibly-null string. */
  predicate IsEmptyOrNull(s: Option<string>) {
    s.None? || IsEmpty(s.value)
  }

  /** PHP's `substr($s, 0, strlen($p)) == $p` for non-numeric `$p`. */
  predicate HasPrefix(s: string, p: string) {
    |p| <= |s| && s[..|p|] == p
  }

  /** `p` occurs somewhere in `s`. */
  predicate Contains(s: string, p: string)
    decreases |s|
  {
    HasPrefix(s, p) || (s != [] && Contains(s[1..], p))
  }

  /** PHP `explode($sep, $s, 2)`: the text before the first separator and everything
      after it, or None when the separator does not occur (the second part is unset). */
  function SplitFirst(s: string, sep: char): (r: Option<(string, string)>)
    ensures r.None? <==> sep !in s
    ensures r.Some? ==> s == r.value.0 + [sep] + r.value.1 && sep !in r.value.0
  {
    if s == [] then None
    else if s[0] == sep then Some(([], s[1..]))
    else
      match SplitFirst(s[1..], sep)
      case None => None
      case Some(parts) =>
        assert s == [s[0]] + s[1..];
        Some(([s[0]] + parts.0, parts.1))
  }

  /** PHP `explode($sep, $s)` without a limit: the separator-free pieces between
      separators; the first piece is the text before the first separator. */
  function Explode(s: string, sep: char): (parts: seq<string>)
    ensures |parts| >= 1
    ensures forall i :: 0 <= i < |parts| ==> sep !in parts[i]
    ensures |parts| == 1 <==> sep !in s
    ensures |parts| == 1 ==> parts[0] == s
    ensures |parts| > 1 ==> |parts[0]| < |s| && s[..|parts[0]|] == parts[0] && s[|parts[0]|] == sep
    decreases |s|
  {
    match SplitFirst(s, sep)
    case None => [s]
    case Some(split) =>
      var rest := Explode(split.1, sep);
      assert s[..|split.0|] == split.0 && s[|split.0|] == sep;
      [split.0] + rest
  }

  /** PHP `implode($sep, $parts)`, the inverse of `Explode`. */
  function Implode(parts: seq<string>, sep: char): string
    requires |parts| >= 1
  {
    if |parts| == 1 then parts[0] else parts[0] + [sep] + Implode(parts[1..], sep)
  }

  /** Exploding and imploding with the same separator gives the string back. */
  lemma {:induction false} ImplodeExplode(s: string, sep: char)
    ensures Implode(Explode(s, sep), sep) == s
    decreases |s|
  {
    match SplitFirst(s, sep)
    case None =>
    case Some(split) =>
      ImplodeExplode(split.1, sep);
      assert Explode(s, sep) == [split.0] + Explode(split.1, sep);
  }

  /** PHP `str_replace($search, $rep, $s)`: every non-overlapping occurrence, scanned from
      the left, is replaced; an empty search string leaves the subject unchanged. */
  function StrReplace(s: string, search: string, rep: string): (r: string)
    ensures search == rep ==> r == s
    ensures search != [] && !Contains(s, search) ==> r == s
    ensures search != [] && HasPrefix(s, search) ==> HasPrefix(r, rep)
    decreases |s|
  {
    if search == [] || |s| < |search| then s
    else if s[..|search|] == search then
      var tail := StrReplace(s[|search|..], search, rep);
      assert search == rep ==> s == s[..|search|] + s[|search|..];
      rep + tail
    else
      assert s == [s[0]] + s[1..];
      [s[0]] + StrReplace(s[1..], search, rep)
  }

  /** One step of `StrReplace` where no occurrence starts at the front. */
  lemma StrReplaceSkip(s: string, search: string, rep: string)
    requires search != [] && |s| >= |search| && s[..|search|] != search
    ensures StrReplace(s, search, rep) == [s[0]] + StrReplace(s[1..], search, rep)
  {
  }

  /** One step of `StrReplace` at an occurrence. */
  lemma StrReplaceHit(s: string, search: string, rep: string)
    requires search != [] && HasPrefix(s, search)
    ensures StrReplace(s, search, rep) == rep + StrReplace(s[|search|..], search, rep)
  {
  }

  /** A single occurrence at position `i`, after text that cannot start one and before a
      tail too short to hold another, is replaced and nothing else changes. */
  lemma {:induction false} StrReplaceOnce(s: string, search: string, rep: string, i: nat)
    requires search != [] && i + |search| <= |s| && s[i..i + |search|] == search
    requires forall k :: 0 <= k < i ==> s[k] != search[0]
    requires |s| - (i + |search|) < |search|
    ensures StrReplace(s, search, rep) == s[..i] + rep + s[i + |search|..]
    decreases i
  {
    if i == 0 {
      StrReplaceHit(s, search, rep);
      assert s[..0] + rep + s[|search|..] == rep + s[|search|..];
    } else {
      ShiftOccurrence(s, search, i);
      StrReplaceOnce(s[1..], search, rep, i - 1);
      OnceStep(s, search, rep, i);
    }
  }

  /** The inductive step of StrReplaceOnce: the first character is copied. */
  lemma OnceStep(s: string, search: string, rep: string, i: nat)
    requires search != [] && 0 < i && i + |search| <= |s| && s[..|search|] != search
    requires StrReplace(s[1..], search, rep) == s[1..][..i - 1] + rep + s[1..][i - 1 + |search|..]
    ensures StrReplace(s, search, rep) == s[..i] + rep + s[i + |search|..]
  {
    StrReplaceSkip(s, search, rep);
    ConsSlices(s, i, rep, |search|);
  }

  /** An occurrence at position `i > 0` of a subject that does not start one is at `i - 1`
      of the rest. */
  lemma ShiftOccurrence(s: string, search: string, i: nat)
    requires search != [] && 0 < i && i + |search| <= |s| && s[i..i + |search|] == search
    requires forall k :: 0 <= k < i ==> s[k] != search[0]
    ensures s[..|search|] != search
    ensures s[1..][i - 1..i - 1 + |search|] == search
    ensures forall k :: 0 <= k < i - 1 ==> s[1..][k] != search[0]
  {
    assert s[..|search|][0] == s[0];
    assert s[1..][i - 1..i - 1 + |search|] == s[i..i + |search|];
  }

  /** Splitting off the first character commutes with slicing around an occurrence. */
  lemma ConsSlices(s: string, i: nat, rep: string, n: nat)
    requires 0 < i && i + n <= |s|
    ensures [s[0]] + (s[1..][..i - 1] + rep + s[1..][i - 1 + n..]) == s[..i] + rep + s[i + n..]
  {
    assert [s[0]] + s[1..][..i - 1] == s[..i];
    assert s[1..][i - 1 + n..] == s[i + n..];
  }

  /** The crawler script name is swapped in a command path. */
  lemma StrReplaceExample(p: string, search: string, rep: string, q: string)
    requires p == "bin/" && search == "webcrawler" && rep == "filecrawler" && q == ".sh"
    ensures StrReplace(p + search + q, search, rep) == p + rep + q
  {
    var s := p + search + q;
    assert s[..|p|] == p && s[|p|..|p| + |search|] == search && s[|p| + |search|..] == q;
    StrReplaceOnce(s, search, rep, |p|);
  }
}
