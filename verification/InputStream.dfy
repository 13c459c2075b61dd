/**
 The two streams a reader can be given (parser/file_stream.cpp, client_utils/tcp_client_stream.cpp): the bytes
 of a file, or a network connection.
 */
module InputStreams {
  import opened Bytes
  import opened ChunkedStream

  class InputStream {
    const tcp: TcpClientStream?
    const file: seq<byte>
    var taken: nat
    var eof: bool

    /** Whether single bytes come out as signed characters. */
    predicate Signed() {
      tcp != null
    }

    ghost function Repr(): set<object> {
      if tcp == null then {this} else {this, tcp}
    }

    ghost predicate Valid()
      reads Repr()
    {
      if tcp == null then taken <= |file| && (eof ==> taken == |file|) else tcp.Valid()
    }

    /** The bytes not read yet. */
    ghost function Rest(): seq<byte>
      requires Valid()
      reads Repr()
    {
      if tcp == null then file[taken..] else tcp.Unread()
    }

    constructor File(bytes: seq<byte>)
      ensures Valid() && !Signed() && Rest() == bytes && !eof && fresh(Repr())
    {
      tcp := null;
      file := bytes;
      taken := 0;
      eof := false;
    }

    constructor Network(stream: TcpClientStream)
      requires stream.Valid()
      ensures Valid() && Signed() && Rest() == stream.Unread() && Repr() == {this, stream}
    {
      tcp := stream;
      file := [];
      taken := 0;
      eof := false;
    }

    /** The next byte as a number, or -1 at the end of the stream. */
    method ReadByte() returns (c: int)
      requires Valid()
      modifies Repr()
      ensures Valid()
      ensures Seen(Signed(), old(Rest()), c, Rest()) && eof == (old(eof) || (!Signed() && old(Rest()) == []))
      ensures old(Rest()) != [] ==> taken == old(taken) + 1
    {
      if tcp != null {
        c := tcp.ReadByte();
        taken := taken + 1;
      } else if taken == |file| {
        eof := true;
        c := -1;
      } else {
        c := file[taken];
        taken := taken + 1;
      }
    }

    /**
     The next n bytes; false when fewer remain, in which case they are used up.  A read of no bytes fails on a
     file whose end has been met and on a connection on which nothing more arrives.
     */
    method ReadData(n: nat) returns (ok: bool, data: seq<byte>)
      requires Valid()
      modifies Repr()
      ensures Valid() && eof == (old(eof) || (!Signed() && n > |old(Rest())|))
      ensures ok == if n > 0 then n <= |old(Rest())| else if Signed() then old(Rest()) != [] else !old(eof)
      ensures ok ==> data == old(Rest())[..n] && Rest() == old(Rest())[n..] && taken == old(taken) + n
      ensures !ok ==> Rest() == []
    {
      if tcp != null {
        ok, data := tcp.ReadData(n);
        taken := taken + n;
      } else {
        var count := if n < |file| - taken then n else |file| - taken;
        data := file[taken..taken + count];
        taken := taken + count;
        eof := eof || count < n;
        ok := !eof;
      }
    }
  }

  function Character(signed: bool, b: byte): int {
    if signed then SignedChar(b) else b
  }

  /** c is what reading a byte from `rest` gives, and `after` follows it. */
  predicate Seen(signed: bool, rest: seq<byte>, c: int, after: seq<byte>) {
    if rest == [] then c == -1 && after == [] else c == Character(signed, rest[0]) && after == rest[1..]
  }
}
