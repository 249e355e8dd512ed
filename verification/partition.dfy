/** The partition function: which ring position owns a resource, read from the
    last 16 hex characters of its content hash taken modulo the ring size. */
module Partition {
  import opened Messages

  /** The number of trailing hash characters the partition reads. */
  const HashSuffixLength: nat := 16

  predicate IsHexDigit(c: char) {
    '0' <= c <= '9' || 'a' <= c <= 'f' || 'A' <= c <= 'F'
  }

  function DigitValue(c: char): (d: nat)
    requires IsHexDigit(c)
    ensures d < 16
  {
    if '0' <= c <= '9' then (c - '0') as nat
    else if 'a' <= c <= 'f' then (c - 'a') as nat + 10
    else (c - 'A') as nat + 10
  }

  function Pow16(k: nat): (p: nat)
    ensures p >= 1
  {
    if k == 0 then 1 else 16 * Pow16(k - 1)
  }

  /** `slice(-k)`: the last k characters, or the whole string when it is shorter. */
  function LastChars(s: string, k: nat): (r: string)
    ensures |r| == if |s| < k then |s| else k
    ensures r == s[|s| - |r|..]
  {
    if |s| <= k then s else s[|s| - k..]
  }

  /** Length of the longest prefix of `s` made of hex digits. */
  function HexPrefixLength(s: string): (m: nat)
    ensures m <= |s|
    ensures forall i :: 0 <= i < m ==> IsHexDigit(s[i])
    ensures m < |s| ==> !IsHexDigit(s[m])
  {
    if |s| == 0 || !IsHexDigit(s[0]) then 0 else 1 + HexPrefixLength(s[1..])
  }

  /** The number an all-hex string denotes, most significant digit first. */
  function HexValue(s: string): (v: nat)
    requires forall i :: 0 <= i < |s| ==> IsHexDigit(s[i])
    ensures v < Pow16(|s|)
  {
    if |s| == 0 then 0
    else
      var d := DigitValue(s[|s| - 1]);
      var w := HexValue(s[..|s| - 1]);
      assert w + 1 <= Pow16(|s| - 1);
      assert 16 * w + 16 <= 16 * Pow16(|s| - 1);
      16 * w + d
  }

  /** `parseInt(s, 16)`: the value of the leading run of hex digits, or nothing
      (NaN) when `s` does not start with one. */
  function ParseHex(s: string): (r: Option<nat>)
    ensures r.None? <==> (|s| == 0 || !IsHexDigit(s[0]))
  {
    var m := HexPrefixLength(s);
    if m == 0 then None else Some(HexValue(s[..m]))
  }

  /** The ring position owning a resource with this hash, on a ring of `n`
      coordinators; nothing when the hash does not parse or the ring is empty
      (NaN compares unequal to every order). */
  function PartitionOf(contentHash: string, n: nat): (r: Option<nat>)
    ensures r.Some? ==> r.value < n
    ensures r.Some? <==> n >= 1 && ParseHex(LastChars(contentHash, HashSuffixLength)).Some?
  {
    if n == 0 then None
    else match ParseHex(LastChars(contentHash, HashSuffixLength))
      case None => None
      case Some(v) => Some(v % n)
  }

  /** For a well-formed digest the partition is the value of its last 16 hex
      digits modulo N, a number below 16^16 = 2^64. */
  lemma DigestPartition(contentHash: string, n: nat)
    requires n >= 1 && |contentHash| >= HashSuffixLength
    requires forall i :: 0 <= i < |contentHash| ==> IsHexDigit(contentHash[i])
    ensures var tail := contentHash[|contentHash| - HashSuffixLength..];
            PartitionOf(contentHash, n) == Some(HexValue(tail) % n) &&
            HexValue(tail) < Pow16(HashSuffixLength)
  {
    var tail := contentHash[|contentHash| - HashSuffixLength..];
    assert LastChars(contentHash, HashSuffixLength) == tail;
    assert HexPrefixLength(tail) == |tail|;
    assert tail[..|tail|] == tail;
  }

  /** Only the last 16 characters matter: whatever precedes them, every
      coordinator computes the same partition. */
  lemma PartitionReadsOnlySuffix(prefix: string, suffix: string, n: nat)
    requires |suffix| >= HashSuffixLength
    ensures PartitionOf(prefix + suffix, n) == PartitionOf(suffix, n)
  {
    var whole := prefix + suffix;
    assert whole[|whole| - HashSuffixLength..] == suffix[|suffix| - HashSuffixLength..];
  }
}
