/** lzio.c: a buffered stream over a reader that delivers pieces of any sizes. */
module Zio {
  import opened LuaProto

  const EOZ := -1

  /** What a reader that delivers these pieces gives in all: an empty piece is the end. */
  function Delivered(pieces: seq<Str>): Str {
    if pieces == [] || pieces[0] == [] then [] else pieces[0] + Delivered(pieces[1..])
  }

  class ZIO {
    /** z->n bytes at z->p that have not been read yet. */
    var buffer: Str
    var pieces: seq<Str>

    /** All bytes that are still to come. */
    ghost function Content(): Str
      reads this
    {
      buffer + Delivered(pieces)
    }

    constructor (data: seq<Str>)
      ensures Content() == Delivered(data)
    {
      buffer, pieces := [], data;
    }

    /** luaZ_fill: the next piece, without its first byte, which is returned. */
    method Fill() returns (c: int)
      requires buffer == []
      modifies this
      ensures if old(Content()) == [] then c == EOZ && Content() == [] && buffer == []
              else c == old(Content())[0] && Content() == old(Content())[1..] && [old(Content())[0]] + buffer <= old(Content())
    {
      if pieces == [] || pieces[0] == [] { return EOZ; }
      var piece := pieces[0];
      pieces := pieces[1..];
      buffer := piece[1..];
      assert [piece[0]] + buffer == piece;
      return piece[0];
    }

    /** luaZ_lookahead: the byte that luaZ_fill has removed is put back. */
    method Lookahead() returns (c: int)
      modifies this
      ensures Content() == old(Content())
      ensures if Content() == [] then c == EOZ else c == Content()[0] && buffer != []
    {
      if buffer == [] {
        var first := Fill();
        if first == EOZ { return EOZ; }
        ghost var rest := Content();
        buffer := [first] + buffer;
        assert Content() == [first] + rest;
      }
      return buffer[0];
    }

    /** luaZ_read: the next n bytes, and how many are missing. */
    method Read(n0: nat) returns (b: Str, n: nat)
      modifies this
      ensures n == if n0 <= |old(Content())| then 0 else n0 - |old(Content())|
      ensures b == old(Content())[..n0 - n] && Content() == old(Content())[n0 - n..]
    {
      b, n := [], n0;
      ghost var all := Content();
      while n > 0
        invariant n <= n0 && n0 - n <= |all| && b == all[..n0 - n] && Content() == all[n0 - n..]
      {
        var c := Lookahead();
        if c == EOZ { return; }
        var m := if n <= |buffer| then n else |buffer|;
        assert buffer <= Content();
        b := b + buffer[..m];
        ghost var was := Content();
        buffer := buffer[m..];
        assert Content() == was[m..];
        n := n - m;
      }
    }
  }
}
