/**
 Which names may appear in a snapshot: a simple name is one word, a slot name is one or
 more words with dots between them.
 */
module Names {
  import opened Bytes

  predicate IsAlpha(c: char) { 'a' <= c <= 'z' || 'A' <= c <= 'Z' }

  predicate Starts(c: char) { IsAlpha(c) || c == '_' }

  predicate Continues(c: char) {
    IsAlpha(c) || '0' <= c <= '9' || c == '_' || c == '!' || c == '?' || c == '@'
  }

  predicate SimpleName(s: string) {
    s != [] && Starts(s[0]) && forall k :: 1 <= k < |s| ==> Continues(s[k])
  }

  predicate SlotName(s: string) { SlotNameFrom(s, true) }

  /** `first` says that a word must start here. */
  predicate SlotNameFrom(s: string, first: bool) {
    if s == [] then !first
    else if first then Starts(s[0]) && SlotNameFrom(s[1..], false)
    else if s[0] == '.' then SlotNameFrom(s[1..], true)
    else Continues(s[0]) && SlotNameFrom(s[1..], false)
  }

  lemma {:induction false} SlotNameNarrow(s: string, first: bool)
    requires SlotNameFrom(s, first)
    ensures Narrow(s)
    ensures first ==> s != []
  {
    if s != [] {
      SlotNameNarrow(s[1..], !first && s[0] == '.');
      assert s == [s[0]] + s[1..];
    }
  }

  lemma SimpleIsSlotName(s: string)
    requires SimpleName(s)
    ensures SlotName(s) && Narrow(s)
  {
    SimpleTail(s[1..]);
    SlotNameNarrow(s, true);
  }

  lemma {:induction false} SimpleTail(s: string)
    requires forall k :: 0 <= k < |s| ==> Continues(s[k])
    ensures SlotNameFrom(s, false)
  {
    if s != [] {
      SimpleTail(s[1..]);
    }
  }

  /** The check the codec makes on the bytes of a slot name. */
  method CheckSlotName(s: string) returns (ok: bool)
    ensures ok == SlotName(s)
  {
    var expectStart := true;
    var i: nat := 0;
    assert s[0..] == s;
    while i < |s|
      invariant i <= |s|
      invariant SlotNameFrom(s[i..], expectStart) == SlotName(s)
    {
      assert s[i..][0] == s[i] && s[i..][1..] == s[i + 1..];
      if expectStart {
        if !Starts(s[i]) {
          return false;
        }
        expectStart := false;
      } else if s[i] == '.' {
        expectStart := true;
      } else if !Continues(s[i]) {
        return false;
      }
      i := i + 1;
    }
    ok := !expectStart;
  }

  method CheckSimpleName(s: string) returns (ok: bool)
    ensures ok == SimpleName(s)
  {
    if |s| == 0 || !Starts(s[0]) {
      return false;
    }
    var i: nat := 1;
    while i < |s|
      invariant 1 <= i <= |s|
      invariant forall k :: 1 <= k < i ==> Continues(s[k])
    {
      if !Continues(s[i]) {
        return false;
      }
      i := i + 1;
    }
    ok := true;
  }
}
