/** Byte strings of fixed width and their big-endian readings. */
module Bytes {
  type Byte = x: int | 0 <= x < 256

  type Bytes32 = s: seq<Byte> | |s| == 32 witness Zeros(32)

  type Bytes65 = s: seq<Byte> | |s| == 65 witness Zeros(65)

  function Zeros(n: nat): (s: seq<Byte>)
    ensures |s| == n && forall i :: 0 <= i < n ==> s[i] == 0
  {
    seq(n, _ => 0)
  }

  /** `slice(start, end)`: whatever of the range exists. */
  function Clamped(data: seq<Byte>, start: nat, end: nat): seq<Byte>
    requires start <= end
  {
    if end <= |data| then data[start..end] else if start <= |data| then data[start..] else []
  }

  function Pow256(n: nat): (p: nat)
    ensures p > 0
  {
    if n == 0 then 1 else 256 * Pow256(n - 1)
  }

  /** The unsigned integer that `s` spells, most significant byte first. */
  function BeValue(s: seq<Byte>): nat {
    if s == [] then 0 else 256 * BeValue(s[..|s| - 1]) + s[|s| - 1]
  }

  /** `v` in exactly `n` bytes, most significant byte first. */
  function BeBytes(v: nat, n: nat): (s: seq<Byte>)
    requires v < Pow256(n)
    ensures |s| == n && BeValue(s) == v
  {
    if n == 0 then [] else BeBytes(v / 256, n - 1) + [v % 256]
  }

  lemma {:induction false} BeValueBound(s: seq<Byte>)
    ensures BeValue(s) < Pow256(|s|)
  {
    if s != [] {
      BeValueBound(s[..|s| - 1]);
    }
  }

  /** Strings of one width are told apart by their values. */
  lemma {:induction false} BeValueInjective(s: seq<Byte>, t: seq<Byte>)
    requires |s| == |t| && BeValue(s) == BeValue(t)
    ensures s == t
  {
    if s != [] {
      BeValueInjective(s[..|s| - 1], t[..|t| - 1]);
      assert s == s[..|s| - 1] + [s[|s| - 1]] && t == t[..|t| - 1] + [t[|t| - 1]];
    }
  }

  lemma {:induction false} BeValueConcat(s: seq<Byte>, t: seq<Byte>)
    ensures BeValue(s + t) == BeValue(s) * Pow256(|t|) + BeValue(t)
  {
    if t == [] {
      assert s + t == s;
    } else {
      var u := t[..|t| - 1];
      assert (s + t)[..|s + t| - 1] == s + u;
      BeValueConcat(s, u);
      assert 256 * (BeValue(s) * Pow256(|u|)) == BeValue(s) * Pow256(|t|);
    }
  }

  lemma {:induction false} BeValueZeros(n: nat)
    ensures BeValue(Zeros(n)) == 0
  {
    if n > 0 {
      assert Zeros(n)[..n - 1] == Zeros(n - 1);
      BeValueZeros(n - 1);
    }
  }

  /** Leading zero bytes do not change the value. */
  lemma BeValueZeroPadded(n: nat, s: seq<Byte>)
    ensures BeValue(Zeros(n) + s) == BeValue(s)
  {
    BeValueConcat(Zeros(n), s);
    BeValueZeros(n);
  }
}
