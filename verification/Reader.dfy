/**
 A cursor over the bytes of a payload, and the checks the validator makes with it.

 Each method is told, as ghost arguments, what a writer may have put at the cursor; if
 that is what is there, the method reads exactly that and stops right behind it.
 */
module Reader {
  import opened Bytes
  import opened Ir
  import opened Values
  import opened Names
  import opened Image
  import opened Encoder

  class Cursor {
    const data: seq<Byte>
    var offset: nat

    ghost predicate Valid()
      reads this
    {
      offset <= |data|
    }

    ghost function Rest(): seq<Byte>
      reads this
      requires Valid()
    {
      data[offset..]
    }

    constructor (data: seq<Byte>)
      ensures Valid() && this.data == data && Rest() == data
    {
      this.data := data;
      offset := 0;
    }

    method ReadU8() returns (err: Error, n: nat)
      requires Valid()
      modifies this
      ensures Valid() && n < 256 && offset >= old(offset)
      ensures var t := TakeU8(old(Rest()));
        if t.Took? then err == Ok && n == t.value && Rest() == t.rest else err == SNAPSHOT_OVERFLOW
    {
      if |data| - offset < 1 {
        return SNAPSHOT_OVERFLOW, 0;
      }
      ghost var was := Rest();
      OctetNum(data[offset]);
      err, n := Ok, Num(data[offset]);
      offset := offset + 1;
      assert was[1..] == Rest();
    }

    method ReadU16() returns (err: Error, n: nat)
      requires Valid()
      modifies this
      ensures Valid() && offset >= old(offset)
      ensures var t := TakeU16(old(Rest()));
        if t.Took? then err == Ok && n == t.value && Rest() == t.rest else err == SNAPSHOT_OVERFLOW
    {
      if |data| - offset < 2 {
        return SNAPSHOT_OVERFLOW, 0;
      }
      ghost var was := Rest();
      err, n := Ok, Bytes.Value(data[offset..offset + 2]);
      assert data[offset..offset + 2] == was[..2];
      offset := offset + 2;
      assert was[2..] == Rest();
    }

    method ReadU32() returns (err: Error, n: nat)
      requires Valid()
      modifies this
      ensures Valid() && offset >= old(offset)
      ensures var t := TakeU32(old(Rest()));
        if t.Took? then err == Ok && n == t.value && Rest() == t.rest else err == SNAPSHOT_OVERFLOW
    {
      if |data| - offset < 4 {
        return SNAPSHOT_OVERFLOW, 0;
      }
      ghost var was := Rest();
      err, n := Ok, Bytes.Value(data[offset..offset + 4]);
      assert data[offset..offset + 4] == was[..4];
      offset := offset + 4;
      assert was[4..] == Rest();
    }

    method ReadI32() returns (err: Error, n: int)
      requires Valid()
      modifies this
      ensures Valid() && offset >= old(offset)
      ensures var t := TakeU32(old(Rest()));
        if t.Took? then err == Ok && n == Signed(t.value) && Rest() == t.rest else err == SNAPSHOT_OVERFLOW
    {
      hide TakeU32;
      var bits;
      err, bits := ReadU32();
      n := Signed(bits);
    }

    method ReadBytes(length: nat) returns (err: Error, bytes: seq<Byte>)
      requires Valid()
      modifies this
      ensures Valid() && offset >= old(offset)
      ensures err == Ok ==> |bytes| == length
      ensures var t := TakeRaw(old(Rest()), length);
        if t.Took? then err == Ok && bytes == t.value && Rest() == t.rest else err == SNAPSHOT_OVERFLOW
    {
      if length > |data| - offset {
        return SNAPSHOT_OVERFLOW, [];
      }
      ghost var was := Rest();
      err, bytes := Ok, data[offset..offset + length];
      assert bytes == was[..length];
      offset := offset + length;
      assert was[length..] == Rest();
    }

    /** A string; the empty one is refused. */
    method ReadStr(empty: Error := SNAPSHOT_FORMAT) returns (err: Error, s: string)
      requires Valid() && empty != Ok
      modifies this
      ensures Valid() && offset >= old(offset)
      ensures var t := TakeStr(old(Rest()));
        && (t.Took? && t.value != [] ==> err == Ok && s == t.value && Rest() == t.rest)
        && (err == Ok ==> s != [])
    {
      hide TakeU16, TextOf;
      var length;
      err, length := ReadU16();
      if err != Ok {
        return err, [];
      }
      if length == 0 {
        return empty, [];
      }
      var bytes;
      err, bytes := ReadBytes(length);
      if err != Ok {
        return err, [];
      }
      s := TextOf(bytes);
    }
  }
}
