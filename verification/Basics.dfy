/**
 Shared small types: optional values, 64-bit saturating arithmetic, and string affixes.
 */
module Basics {

  datatype Option<+T> = None | Some(value: T)

  // ---------------------------------------------------------------- numbers

  const USIZE_MAX: nat := 0xFFFF_FFFF_FFFF_FFFF

  function Min(a: nat, b: nat): nat { if a <= b then a else b }

  function Max(a: nat, b: nat): nat { if a <= b then b else a }

  /** `saturating_add` on a 64-bit unsigned number. */
  function SatAdd(a: nat, b: nat): nat { Min(a + b, USIZE_MAX) }

  function SatSub(a: nat, b: nat): nat { if b <= a then a - b else 0 }

  // ---------------------------------------------------------------- sequences

  /** `truncate`. */
  function Truncate<T>(s: seq<T>, cap: nat): (r: seq<T>) {
    if |s| <= cap then s else s[..cap]
  }

  /** `dedup`: of equal neighbours one stays. */
  function DedupNeighbours(s: seq<string>): seq<string>
    decreases |s|
  {
    if |s| < 2 then s
    else if s[0] == s[1] then DedupNeighbours(s[1..])
    else [s[0]] + DedupNeighbours(s[1..])
  }

  lemma {:induction false} DedupKeepsMembers(s: seq<string>)
    ensures forall p :: p in DedupNeighbours(s) <==> p in s
    decreases |s|
  {
    if |s| >= 2 {
      DedupKeepsMembers(s[1..]);
      assert s == [s[0]] + s[1..];
    }
  }

  // ---------------------------------------------------------------- strings

  predicate StartsWith(s: string, prefix: string) {
    |prefix| <= |s| && s[..|prefix|] == prefix
  }

  predicate EndsWith(s: string, suffix: string) {
    |suffix| <= |s| && s[|s| - |suffix|..] == suffix
  }

  lemma StartChars(s: string, prefix: string)
    requires StartsWith(s, prefix)
    ensures forall i :: 0 <= i < |prefix| ==> s[i] == prefix[i]
  {
    assert forall i :: 0 <= i < |prefix| ==> s[..|prefix|][i] == s[i];
  }

  lemma EndChars(s: string, suffix: string)
    requires EndsWith(s, suffix)
    ensures forall i :: 0 <= i < |suffix| ==> s[|s| - |suffix| + i] == suffix[i]
  {
    assert forall i :: 0 <= i < |suffix| ==> s[|s| - |suffix|..][i] == suffix[i];
  }

  /** The position of the last dot, or -1. */
  function LastDot(s: string): (i: int)
    ensures -1 <= i < |s| && (i >= 0 ==> s[i] == '.')
    ensures forall j :: i < j < |s| ==> s[j] != '.'
  {
    if s == "" then -1 else if s[|s| - 1] == '.' then |s| - 1 else LastDot(s[..|s| - 1])
  }

  function Lower(c: char): char { if 'A' <= c <= 'Z' then (c as int + 32) as char else c }

  /** `to_ascii_lowercase`. */
  function AsciiLower(s: string): (r: string)
    ensures |r| == |s| && forall i :: 0 <= i < |s| ==> r[i] == Lower(s[i])
  {
    if s == "" then "" else [Lower(s[0])] + AsciiLower(s[1..])
  }
}
