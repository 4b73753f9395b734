/** Python's files of bytes, as far as the scripts read and write them in order. */
module Files {

  type Byte = b: nat | b < 0x100

  class InFile {
    const data: seq<Byte>
    var pos: nat

    constructor (data: seq<Byte>)
      ensures this.data == data && pos == 0
    {
      this.data, pos := data, 0;
    }

    ghost predicate Valid()
      reads this
    {
      pos <= |data|
    }

    ghost function Rest(): seq<Byte>
      requires Valid()
      reads this
    {
      data[pos..]
    }

    /** file.read(n): what is left if n is negative or too large. */
    method Read(n: int) returns (c: seq<Byte>)
      requires Valid()
      modifies this
      ensures Valid() && c == Taken(old(Rest()), n) && Rest() == Left(old(Rest()), n)
    {
      var end := if n < 0 || pos + n > |data| then |data| else pos + n;
      c := data[pos..end];
      pos := end;
    }
  }

  function Taken(s: seq<Byte>, n: int): seq<Byte> { if n < 0 || n > |s| then s else s[..n] }

  function Left(s: seq<Byte>, n: int): seq<Byte> { if n < 0 || n > |s| then [] else s[n..] }

  class OutFile {
    var data: seq<Byte>

    constructor ()
      ensures data == []
    {
      data := [];
    }

    method Write(s: seq<Byte>)
      modifies this
      ensures data == old(data) + s
    {
      data := data + s;
    }
  }
}
