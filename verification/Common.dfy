/** Shapes used by several components. */
module Common {

  datatype Option<T> = None | Some(value: T)

  type Byte = x: int | 0 <= x < 256 witness 0

  function Min(a: nat, b: nat): nat { if a < b then a else b }

  function One(b: bool): nat { if b then 1 else 0 }

  /** An IPv4 address: four bytes in network order. */
  datatype Address = Address(b0: Byte, b1: Byte, b2: Byte, b3: Byte)

  // ---------- linked lists as sequences ----------

  ghost predicate NoDup(s: seq<nat>) {
    forall i, j :: 0 <= i < j < |s| ==> s[i] != s[j]
  }

  /** Unlinks the first occurrence of x. */
  function Without(s: seq<nat>, x: nat): seq<nat> {
    if s == [] then [] else if s[0] == x then s[1..] else [s[0]] + Without(s[1..], x)
  }

  lemma {:induction false} WithoutSpec(s: seq<nat>, x: nat)
    requires NoDup(s)
    ensures NoDup(Without(s, x))
    ensures forall y :: y in Without(s, x) <==> y in s && y != x
    ensures x in s ==> |Without(s, x)| == |s| - 1
  {
    if s != [] {
      var t := Without(s[1..], x);
      WithoutSpec(s[1..], x);
      assert s == [s[0]] + s[1..];
      assert s[0] !in s[1..];
      if s[0] != x {
        assert Without(s, x) == [s[0]] + t;
        assert s[0] !in t;
      }
    }
  }

  lemma SubsetSize(a: set<nat>, b: set<nat>)
    requires a <= b
    ensures |a| <= |b|
  {
    assert b == a + (b - a);
  }

  // ---------- searching a string ----------

  /** First index at or after i that is (or is not) the given character. */
  method IndexOf(s: string, i: nat, c: char) returns (k: nat)
    requires i <= |s|
    ensures i <= k <= |s| && (k < |s| ==> s[k] == c) && c !in s[i..k]
  {
    k := i;
    while k < |s| && s[k] != c
      invariant i <= k <= |s| && c !in s[i..k]
    {
      k := k + 1;
    }
  }

  method IndexOfNot(s: string, i: nat, c: char) returns (k: nat)
    requires i <= |s|
    ensures i <= k <= |s| && (k < |s| ==> s[k] != c) && forall j :: i <= j < k ==> s[j] == c
  {
    k := i;
    while k < |s| && s[k] == c
      invariant i <= k <= |s| && forall j :: i <= j < k ==> s[j] == c
    {
      k := k + 1;
    }
  }
}
