/**
 * The few JavaScript string operations the backend relies on, with their
 * ECMAScript meaning: String.prototype.indexOf, String.prototype.split with a
 * non-empty string separator, Array.prototype.join, and the decimal rendering
 * of a non-negative integer in a template literal.
 */
module JsString {
  import opened Wrappers

  /** `sep` occurs in `s` starting at index `i`. */
  predicate OccursAt(s: string, sep: string, i: nat) {
    i + |sep| <= |s| && s[i..i + |sep|] == sep
  }

  /** `sep` occurs somewhere in `s`. */
  predicate Contains(s: string, sep: string) {
    exists i: nat | i <= |s| :: OccursAt(s, sep, i)
  }

  /** `s.indexOf(sep, from)`: the first occurrence at or after `from`, or None for -1. */
  function IndexOf(s: string, sep: string, from: nat): (r: Option<nat>)
    decreases |s| - from
    ensures r.Some? ==> from <= r.value && OccursAt(s, sep, r.value)
    ensures r.Some? ==> forall i: nat :: from <= i < r.value ==> !OccursAt(s, sep, i)
    ensures r.None? ==> forall i: nat :: from <= i ==> !OccursAt(s, sep, i)
  {
    if |s| < from + |sep| then None
    else if s[from..from + |sep|] == sep then Some(from)
    else IndexOf(s, sep, from + 1)
  }

  /** `parts.join(sep)`. */
  function Join(parts: seq<string>, sep: string): string
  {
    if |parts| == 0 then ""
    else if |parts| == 1 then parts[0]
    else parts[0] + sep + Join(parts[1..], sep)
  }

  /** Joining a piece in front of at least one other piece puts the separator between them. */
  lemma JoinCons(first: string, rest: seq<string>, sep: string)
    requires |rest| >= 1
    ensures Join([first] + rest, sep) == first + sep + Join(rest, sep)
  {
    assert ([first] + rest)[1..] == rest;
  }

  /**
   * `s.split(sep)` for a non-empty separator: the pieces between successive
   * non-overlapping occurrences, scanned left to right. Joining the pieces
   * with the separator gives back the string.
   */
  function Split(s: string, sep: string): (parts: seq<string>)
    requires sep != ""
    decreases |s|
    ensures |parts| >= 1
  {
    match IndexOf(s, sep, 0)
    case None => [s]
    case Some(i) => [s[..i]] + Split(s[i + |sep|..], sep)
  }

  /** Joining the pieces of a split with the same separator gives back the string. */
  lemma {:induction false} JoinSplit(s: string, sep: string)
    requires sep != ""
    decreases |s|
    ensures Join(Split(s, sep), sep) == s
  {
    match IndexOf(s, sep, 0) {
      case None =>
      case Some(i) =>
        var tail := s[i + |sep|..];
        var rest := Split(tail, sep);
        assert Join(rest, sep) == tail by { JoinSplit(tail, sep); }
        assert Split(s, sep) == [s[..i]] + rest;
        JoinCons(s[..i], rest, sep);
        assert s == s[..i] + sep + tail by {
          assert s[i..i + |sep|] == sep;
        }
    }
  }

  /** The first piece of `s.split(sep)`: everything before the first occurrence. */
  lemma {:induction false} FirstPiece(s: string, sep: string)
    requires sep != ""
    ensures Split(s, sep)[0] ==
      match IndexOf(s, sep, 0)
      case None => s
      case Some(i) => s[..i]
  {
  }

  /** The first piece of the split of a suffix, in terms of a search of the whole string. */
  lemma RestPiece(s: string, sep: string, start: nat)
    requires sep != "" && start <= |s|
    ensures IndexOf(s, sep, start).None? ==> Split(s[start..], sep)[0] == s[start..]
    ensures IndexOf(s, sep, start).Some? ==>
      Split(s[start..], sep)[0] == s[start..IndexOf(s, sep, start).value]
  {
    var rest := s[start..];
    FirstPiece(rest, sep);
    ShiftIndexOf(s, sep, start, 0);
    match IndexOf(rest, sep, 0) {
      case None =>
      case Some(j) =>
        assert rest[..j] == s[start..start + j];
    }
  }

  /**
   * What `s.split(sep)[1]` reads when the separator occurs, first at `i`: the
   * text between that occurrence and the next one, or the end of the string.
   */
  lemma SecondPiece(s: string, sep: string, i: nat)
    requires sep != ""
    requires IndexOf(s, sep, 0) == Some(i)
    ensures |Split(s, sep)| > 1
    ensures IndexOf(s, sep, i + |sep|).None? ==> Split(s, sep)[1] == s[i + |sep|..]
    ensures IndexOf(s, sep, i + |sep|).Some? ==>
      Split(s, sep)[1] == s[i + |sep|..IndexOf(s, sep, i + |sep|).value]
  {
    var start := i + |sep|;
    var rest := s[start..];
    var parts := Split(s, sep);
    assert parts == [s[..i]] + Split(rest, sep);
    assert parts[1] == Split(rest, sep)[0];
    RestPiece(s, sep, start);
  }

  /** Without an occurrence of the separator, `s.split(sep)` is `[s]`, so its index 1 is undefined. */
  lemma NoSecondPiece(s: string, sep: string)
    requires sep != ""
    requires IndexOf(s, sep, 0).None?
    ensures Split(s, sep) == [s]
  {
  }

  /** Searching a suffix is searching the whole string from where the suffix starts. */
  lemma {:induction false} ShiftIndexOf(s: string, sep: string, start: nat, i: nat)
    requires start <= |s|
    decreases |s| - start - i
    ensures IndexOf(s[start..], sep, i).None? <==> IndexOf(s, sep, start + i).None?
    ensures IndexOf(s[start..], sep, i).Some? ==>
      IndexOf(s, sep, start + i).value == start + IndexOf(s[start..], sep, i).value
  {
    var t := s[start..];
    if i + |sep| <= |t| {
      assert t[i..i + |sep|] == s[start + i..start + i + |sep|];
      if t[i..i + |sep|] != sep {
        ShiftIndexOf(s, sep, start, i + 1);
      }
    }
  }

  /** A one-character separator that is absent from the first piece is found right after it. */
  lemma FirstSeparator(a: string, c: char, b: string)
    requires c !in a
    ensures IndexOf(a + [c] + b, [c], 0) == Some(|a|)
  {
    var s := a + [c] + b;
    forall i: nat | i < |a|
      ensures !OccursAt(s, [c], i)
    {
      assert s[i..i + 1][0] == a[i];
    }
    assert OccursAt(s, [c], |a|);
  }

  /**
   * Join and Split are inverse for a one-character separator that none of the
   * (at least one) pieces contains.
   */
  lemma {:induction false} SplitJoin(parts: seq<string>, c: char)
    requires |parts| >= 1
    requires forall k :: 0 <= k < |parts| ==> c !in parts[k]
    ensures Split(Join(parts, [c]), [c]) == parts
  {
    if |parts| == 1 {
      var s := parts[0];
      forall i: nat | i < |s|
        ensures !OccursAt(s, [c], i)
      {
        assert s[i..i + 1][0] == s[i];
      }
    } else {
      var rest := Join(parts[1..], [c]);
      FirstSeparator(parts[0], c, rest);
      var s := parts[0] + [c] + rest;
      assert s[|parts[0]| + 1..] == rest;
      assert s[..|parts[0]|] == parts[0];
      SplitJoin(parts[1..], c);
      assert parts == [parts[0]] + parts[1..];
    }
  }

  predicate IsDigit(c: char) {
    '0' <= c <= '9'
  }

  function DigitChar(d: nat): (c: char)
    requires d < 10
    ensures IsDigit(c)
  {
    (48 + d) as char
  }

  function DigitValue(c: char): nat
    requires IsDigit(c)
  {
    (c as int) - 48
  }

  /** `${n}` for a non-negative integer: its decimal digits, most significant first. */
  function NatToString(n: nat): (s: string)
    decreases n
    ensures |s| >= 1
    ensures forall i :: 0 <= i < |s| ==> IsDigit(s[i])
  {
    if n < 10 then [DigitChar(n)]
    else NatToString(n / 10) + [DigitChar(n % 10)]
  }

  /** Reads a string of decimal digits back as a number. */
  function ParseNat(s: string): nat
    requires forall i :: 0 <= i < |s| ==> IsDigit(s[i])
  {
    if s == [] then 0
    else 10 * ParseNat(s[..|s| - 1]) + DigitValue(s[|s| - 1])
  }

  /** The decimal rendering is read back exactly, so it is injective. */
  lemma {:induction false} ParseNatToString(n: nat)
    ensures ParseNat(NatToString(n)) == n
  {
    var s := NatToString(n);
    if n >= 10 {
      ParseNatToString(n / 10);
      assert s[..|s| - 1] == NatToString(n / 10);
    }
  }
}
