/**
 The comparison behind the append-only guard of `runvault sync`: is one stream
 of bytes a prefix of another?

 Both are streamed through fixed buffers by readers that may return fewer
 bytes than asked for, at any time. The answer is exact for every pair of contents
 and every pattern of short reads.
*/
module PrefixCheck {
  import opened TextOrder

  /** The size of each of the two buffers. */
  const CHUNK: nat := 64 * 1024

  /** A byte source that may deliver any positive number of the bytes asked for. */
  class Reader {
    const content: Bytes
    var pos: nat

    ghost predicate Valid()
      reads this
    {
      pos <= |content|
    }

    /** The bytes not yet read. */
    ghost function Left(): Bytes
      reads this
      requires Valid()
    {
      content[pos..]
    }

    constructor (content: Bytes)
      ensures Valid() && Left() == content && this.content == content
    {
      this.content := content;
      pos := 0;
    }

    /** One read into `buffer[from..to]`: zero bytes only at the end of the content, or when none are asked for. */
    method Read(buffer: array<Byte>, from: nat, to: nat) returns (n: nat)
      requires Valid() && from <= to <= buffer.Length
      modifies this`pos, buffer
      ensures Valid() && n <= to - from && n <= |old(Left())|
      ensures n == 0 <==> from == to || old(Left()) == []
      ensures buffer[from..from + n] == old(Left())[..n] && Left() == old(Left())[n..]
      ensures buffer[..from] == old(buffer[..from])
    {
      var limit := if to - from < |content| - pos then to - from else |content| - pos;
      n := 0;
      if limit > 0 {
        n :| 1 <= n <= limit;
      }
      for i := 0 to n
        invariant buffer[..from] == old(buffer[..from])
        invariant pos == old(pos)
        invariant forall k :: from <= k < from + i ==> buffer[k] == content[pos + k - from]
      {
        buffer[from + i] := content[pos + i];
      }
      ghost var got, wanted := buffer[from..from + n], content[pos..pos + n];
      assert forall k :: 0 <= k < n ==> got[k] == wanted[k];
      assert got == wanted;
      pos := pos + n;
    }
  }

  /** However the reads fall, `buffer[..to]` gets the next bytes of the reader, fewer only where it ends. */
  method ReadFull(reader: Reader, buffer: array<Byte>, to: nat) returns (filled: nat)
    requires reader.Valid() && to <= buffer.Length
    modifies reader`pos, buffer
    ensures reader.Valid() && filled <= to && filled <= |old(reader.Left())|
    ensures filled < to ==> filled == |old(reader.Left())|
    ensures buffer[..filled] == old(reader.Left())[..filled] && reader.Left() == old(reader.Left())[filled..]
  {
    filled := 0;
    while filled < to
      invariant reader.Valid() && filled <= to && filled <= |old(reader.Left())|
      invariant buffer[..filled] == old(reader.Left())[..filled]
      invariant reader.Left() == old(reader.Left())[filled..]
    {
      ghost var before := reader.Left();
      var n := reader.Read(buffer, filled, to);
      if n == 0 { break; }
      assert buffer[..filled + n] == buffer[..filled] + buffer[filled..filled + n];
      assert before[..n] == old(reader.Left())[filled..filled + n];
      filled := filled + n;
    }
  }

  /** Agreement on a chunk moves the question past the chunk; disagreement settles it. */
  lemma ChunkDecides(stored: Bytes, source: Bytes, n: nat, m: nat)
    requires n <= |stored| && m <= n && m <= |source| && (m < n ==> m == |source|)
    ensures stored <= source <==> m == n && stored[..n] == source[..m] && stored[n..] <= source[m..]
  {
    if m == n && stored[..n] == source[..m] && stored[n..] <= source[m..] {
      assert stored == stored[..n] + stored[n..] && source == source[..n] + source[n..];
    }
    if stored <= source {
      assert source[..|stored|] == stored;
      assert m == n;
      assert stored[..n] == source[..n];
      assert source[n..][..|stored| - n] == stored[n..];
    }
  }

  /** True exactly when what is left of `stored` begins what is left of `source`. */
  method StoredIsPrefixOf(stored: Reader, source: Reader) returns (r: bool)
    requires stored.Valid() && source.Valid() && stored != source
    modifies stored`pos, source`pos
    ensures r <==> old(stored.Left()) <= old(source.Left())
  {
    var left := new Byte[CHUNK];
    var right := new Byte[CHUNK];
    while true
      invariant stored.Valid() && source.Valid()
      invariant old(stored.Left()) <= old(source.Left()) <==> stored.Left() <= source.Left()
      decreases |stored.Left()|
    {
      ghost var s, f := stored.Left(), source.Left();
      var n := ReadFull(stored, left, CHUNK);
      if n == 0 { return true; }
      var m := ReadFull(source, right, n);
      ChunkDecides(s, f, n, m);
      assert left[..n] == s[..n] && right[..m] == f[..m];
      if m != n || left[..n] != right[..n] { return false; }
    }
  }
}
