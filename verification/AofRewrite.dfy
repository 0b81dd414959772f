/** The buffer that collects commands while a child process rewrites the append only file (aof.c). */
module AofBuffer {
  type Byte = bv8

  const BLOCK := 1024 * 1024 * 10

  /** `free` is not given back when the front of a block is sent. */
  datatype Block = Block(data: seq<Byte>, free: nat)

  function Flatten(bs: seq<Block>): seq<Byte> {
    if bs == [] then [] else bs[0].data + Flatten(bs[1..])
  }

  lemma {:induction false} FlattenAppend(bs: seq<Block>, b: Block)
    ensures Flatten(bs + [b]) == Flatten(bs) + b.data
  {
    if bs == [] {
      assert Flatten([b]) == b.data + Flatten([]);
    } else {
      FlattenAppend(bs[1..], b);
      assert (bs + [b])[1..] == bs[1..] + [b];
      assert Flatten(bs + [b]) == bs[0].data + (Flatten(bs[1..]) + b.data);
    }
  }

  lemma {:induction false} FlattenSplit(bs: seq<Block>, k: nat)
    requires k <= |bs|
    ensures Flatten(bs) == Flatten(bs[..k]) + Flatten(bs[k..])
  {
    if k == 0 {
      assert bs[..0] == [] && bs[0..] == bs;
    } else {
      FlattenSplit(bs[1..], k - 1);
      assert bs[..k][1..] == bs[1..][..k - 1] && bs[k..] == bs[1..][k - 1..];
      assert Flatten(bs) == bs[0].data + (Flatten(bs[1..][..k - 1]) + Flatten(bs[k..]));
    }
  }

  lemma NoBlocks()
    ensures Flatten([]) == []
  {
  }

  lemma FirstBlock(bs: seq<Block>)
    requires bs != []
    ensures Flatten(bs) == bs[0].data + Flatten(bs[1..]) && |Flatten(bs)| >= |bs[0].data|
    ensures bs[0].data == [] ==> Flatten(bs) == Flatten(bs[1..])
  {
  }

  /** What write(2) does with n bytes when it answers r: the count taken, or an error. */
  function Taken(n: nat, r: int): (t: int)
    ensures t <= n && (n > 0 && r > 0 ==> t > 0)
  {
    if r > n then n else r
  }

  class RewriteBuffer {
    var blocks: seq<Block>

    ghost predicate Valid()
      reads this
    {
      forall k :: 0 <= k < |blocks| ==> |blocks[k].data| + blocks[k].free <= BLOCK
    }

    ghost function Contents(): seq<Byte>
      reads this
    {
      Flatten(blocks)
    }

    constructor ()
      ensures Valid() && Contents() == []
    {
      blocks := [];
    }

    method Size() returns (size: nat)
      ensures size == |Contents()|
    {
      size := 0;
      for i := 0 to |blocks|
        invariant size == |Flatten(blocks[..i])|
      {
        assert blocks[..i + 1] == blocks[..i] + [blocks[i]];
        FlattenAppend(blocks[..i], blocks[i]);
        size := size + |blocks[i].data|;
      }
      assert blocks[..|blocks|] == blocks;
    }

    /** memcpy into the free part of the last block. */
    method FillLast(s: seq<Byte>) returns (rest: seq<Byte>)
      requires Valid() && blocks != []
      modifies this
      ensures Valid() && |blocks| == old(|blocks|)
      ensures Contents() + rest == old(Contents()) + s
      ensures |rest| <= |s| && (|rest| == |s| <==> s == [] || old(blocks[|blocks| - 1].free) == 0)
    {
      hide Flatten;
      var front, b := blocks[..|blocks| - 1], blocks[|blocks| - 1];
      var thislen := if b.free < |s| then b.free else |s|;
      var b' := Block(b.data + s[..thislen], b.free - thislen);
      assert blocks == front + [b];
      FlattenAppend(front, b);
      FlattenAppend(front, b');
      blocks, rest := front + [b'], s[thislen..];
      assert s == s[..thislen] + rest;
    }

    /** Fill the last block, then new ones. */
    method Append(s: seq<Byte>)
      requires Valid()
      modifies this
      ensures Valid() && Contents() == old(Contents()) + s
    {
      hide Flatten;
      var rest := s;
      while rest != []
        invariant Valid() && old(Contents()) + s == Contents() + rest
        decreases |rest|, if blocks != [] && blocks[|blocks| - 1].free > 0 then 0 else 1
      {
        if blocks != [] {
          rest := FillLast(rest);
        }
        if rest != [] {
          FlattenAppend(blocks, Block([], BLOCK));
          blocks := blocks + [Block([], BLOCK)];
        }
      }
    }

    /** One write of the first block's data, of which n bytes were taken. */
    method DropFront(n: nat)
      requires Valid() && blocks != [] && n <= |blocks[0].data|
      modifies this
      ensures Valid() && blocks == [old(blocks[0]).(data := old(blocks[0].data)[n..])] + old(blocks)[1..]
      ensures old(Contents()) == old(blocks[0].data)[..n] + Contents()
    {
      var b := blocks[0];
      blocks := [b.(data := b.data[n..])] + blocks[1..];
      assert blocks[1..] == old(blocks)[1..];
      assert b.data == b.data[..n] + b.data[n..];
    }

    /** aofChildWriteDiffData.  `answer(k)` is the result of the k-th write call; `watch` tells whether
        the handler stays installed. */
    method SendDiff(stop: bool, answer: nat -> int) returns (sent: seq<Byte>, watch: bool)
      requires Valid()
      modifies this
      ensures Valid() && old(Contents()) == sent + Contents()
      ensures stop ==> sent == []
      ensures !watch <==> stop || Contents() == []
      ensures watch ==> exists k :: answer(k) <= 0
    {
      hide Flatten;
      NoBlocks();
      sent := [];
      var calls := 0;
      while true
        invariant Valid() && old(Contents()) == sent + Contents() && (stop ==> sent == [])
        decreases |Contents()|, |blocks|
      {
        if stop || blocks == [] {
          return sent, false;
        }
        if blocks[0].data != [] {
          var n := Taken(|blocks[0].data|, answer(calls));
          if n <= 0 {
            FirstBlock(blocks);
            return sent, true;
          }
          calls := calls + 1;
          sent := sent + blocks[0].data[..n];
          DropFront(n);
        }
        if blocks[0].data == [] {
          FirstBlock(blocks);
          blocks := blocks[1..];
        }
      }
    }

    /** aofRewriteBufferWrite: all blocks go to the file, or the answer is an error. */
    method WriteTo(answer: nat -> int) returns (written: seq<Byte>, count: int)
      ensures written <= Contents()
      ensures count == -1 || (count == |Contents()| && written == Contents())
      ensures (forall k :: 0 <= k < |blocks| ==> answer(k) >= |blocks[k].data|) ==> count != -1
    {
      written, count := [], 0;
      for i := 0 to |blocks|
        invariant written == Flatten(blocks[..i]) && count == |written|
      {
        FlattenSplit(blocks, i);
        assert blocks[..i + 1] == blocks[..i] + [blocks[i]];
        FlattenAppend(blocks[..i], blocks[i]);
        var data := blocks[i].data;
        if data != [] {
          var n := Taken(|data|, answer(i));
          if n != |data| {
            if n > 0 {
              FlattenSplit(blocks, i + 1);
              written := written + data[..n];
            }
            return written, -1;
          }
          written, count := written + data, count + n;
        }
      }
      assert blocks[..|blocks|] == blocks;
    }
  }

  /** aofReadDiffFromParent on a pipe holding `pipe`.  `answer(k)` is the most the k-th read call may
      return, and not positive when it fails although there is data. */
  method ReadDiff(pipe: seq<Byte>, answer: nat -> int) returns (got: seq<Byte>, rest: seq<Byte>)
    ensures pipe == got + rest
    ensures rest != [] ==> exists k :: answer(k) <= 0
  {
    got, rest := [], pipe;
    var calls := 0;
    while rest != [] && answer(calls) > 0
      invariant pipe == got + rest
      decreases |rest|
    {
      var n := Taken(|rest|, if answer(calls) > 65536 then 65536 else answer(calls));
      assert rest == rest[..n] + rest[n..];
      got, rest := got + rest[..n], rest[n..];
      calls := calls + 1;
    }
  }
}
