/**
 Byte strings that differ in a single place.
 */
module Damage {
  import opened Bytes
  import opened Crc

  lemma SliceKept(f: seq<Byte>, k: seq<Byte>, at: nat, from: nat, to: nat)
    requires OneChange(f, k, at) && from <= to <= |f|
    ensures !(from <= at < to) ==> f[from..to] == k[from..to]
  {
    forall i | from <= i < to && i != at
      ensures f[i] == k[i]
    {
      Elsewhere(f, k, at, i);
    }
  }

  lemma Elsewhere(f: seq<Byte>, k: seq<Byte>, at: nat, i: nat)
    requires OneChange(f, k, at) && i < |f| && i != at
    ensures f[i] == k[i]
  {
    if i < at {
      assert f[i] == f[..at][i] && k[i] == k[..at][i];
    } else {
      assert f[i] == f[at + 1..][i - at - 1] && k[i] == k[at + 1..][i - at - 1];
    }
  }

  lemma SliceChanged(f: seq<Byte>, k: seq<Byte>, at: nat, from: nat, to: nat)
    requires OneChange(f, k, at) && to <= |f|
    ensures from <= at < to ==> f[from..to] != k[from..to]
  {
    if from <= at < to {
      assert f[at] == f[from..to][at - from] && k[at] == k[from..to][at - from];
    }
  }

  lemma SliceOneChange(f: seq<Byte>, k: seq<Byte>, at: nat, from: nat, to: nat)
    requires OneChange(f, k, at) && from <= at < to <= |f|
    ensures OneChange(f[from..to], k[from..to], at - from)
  {
    var x, y := f[from..to], k[from..to];
    forall i | 0 <= i < |x| && i != at - from ensures x[i] == y[i] {
      Elsewhere(f, k, at, from + i);
    }
  }
}
