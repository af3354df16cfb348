/** The cursor over a byte string from which both fixed-layout decoders read. */
module ByteReader {
  import opened ByteStrings

  class Reader {
    const bytes: Bytes
    var offset: nat

    ghost predicate Valid()
      reads this
    {
      offset <= |bytes|
    }

    /** The bytes not yet taken. */
    ghost function Rest(): Bytes
      reads this
      requires Valid()
    {
      bytes[offset..]
    }

    constructor (value: Bytes)
      ensures Valid() && bytes == value && Rest() == value
    {
      bytes := value;
      offset := 0;
    }

    method Take(length: nat) returns (taken: Option<Bytes>)
      requires Valid()
      modifies this
      ensures Valid()
      ensures taken == if length <= |old(Rest())| then Some(old(Rest())[..length]) else None
      ensures Rest() == if taken.Some? then old(Rest())[length..] else old(Rest())
    {
      var end := offset + length;
      if end > |bytes| {
        return None;
      }
      assert bytes[offset..end] == Rest()[..length] && bytes[end..] == Rest()[length..];
      taken := Some(bytes[offset..end]);
      offset := end;
    }
  }
}
