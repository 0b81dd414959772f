/** Packing and unpacking Lua values (lua-seri.c): a chain of fixed-size blocks written by recursive
    calls, flattened into one buffer, and a cursor that reads it back. */
module Seri {
  import opened Collections
  import opened Endian
  import opened SeriFormat

  const BLOCK_SIZE := 128
  const MAX_DEPTH := 32

  type Block = b: seq<Byte> | |b| == BLOCK_SIZE witness seq(BLOCK_SIZE, _ => 0)

  ghost function Flat(bs: seq<Block>): Text {
    if bs == [] then [] else Flat(bs[..|bs| - 1]) + bs[|bs| - 1]
  }

  lemma FlatAppend(bs: seq<Block>, b: Block)
    ensures Flat(bs + [b]) == Flat(bs) + b
  {
  }

  class WriteBlock {
    var blocks: seq<Block>    // from head to current
    var ptr: nat
    var len: nat

    ghost predicate Valid()
      reads this
    {
      blocks != [] && ptr <= BLOCK_SIZE && len == BLOCK_SIZE * (|blocks| - 1) + ptr
    }

    ghost function Contents(): Text
      reads this
      requires Valid()
    {
      Flat(blocks[..|blocks| - 1]) + blocks[|blocks| - 1][..ptr]
    }

    constructor (first: Block)
      ensures Valid() && Contents() == []
    {
      blocks, ptr, len := [first], 0, 0;
    }

    /** blk_alloc, linked after a full block; what the new block holds does not matter. */
    method Alloc(blank: Block)
      requires Valid() && ptr == BLOCK_SIZE
      modifies this
      ensures Valid() && ptr == 0 && Contents() == old(Contents())
    {
      var n := |blocks|;
      FlatAppend(blocks[..n - 1], blocks[n - 1]);
      assert blocks == blocks[..n - 1] + [blocks[n - 1]];
      assert blocks[n - 1][..ptr] == blocks[n - 1];
      blocks, ptr := blocks + [blank], 0;
      assert blocks[..n] == old(blocks) && blocks[n][..0] == [];
    }

    /** memcpy into the current block. */
    method Copy(s: Text)
      requires Valid() && ptr + |s| <= BLOCK_SIZE
      modifies this
      ensures Valid() && ptr == old(ptr) + |s| && Contents() == old(Contents()) + s
    {
      var front, b := blocks[..|blocks| - 1], blocks[|blocks| - 1];
      var b' := b[..ptr] + s + b[ptr + |s|..];
      blocks := front + [b'];
      assert blocks[..|blocks| - 1] == front;
      assert b'[..ptr + |s|] == b[..ptr] + s;
      ptr, len := ptr + |s|, len + |s|;
    }

    /** wb_push: fill the current block, then go on in a new one. */
    method Push(s: Text, blank: Block)
      requires Valid()
      modifies this
      ensures Valid() && Contents() == old(Contents()) + s
    {
      hide Flat;
      var rest := s;
      if ptr == BLOCK_SIZE {
        Alloc(blank);
      }
      while ptr > BLOCK_SIZE - |rest|
        invariant Valid() && old(Contents()) + s == Contents() + rest
        decreases |rest|, ptr
      {
        var copy := BLOCK_SIZE - ptr;
        assert rest == rest[..copy] + rest[copy..];
        Copy(rest[..copy]);
        rest := rest[copy..];
        Alloc(blank);
      }
      Copy(rest);
    }

    /** seri: the chain copied into one buffer. */
    method Flatten() returns (buffer: Text)
      requires Valid()
      ensures buffer == Contents()
    {
      buffer := [];
      var left, i := len, 0;
      while left > 0
        invariant 0 <= i <= |blocks| && left == len - BLOCK_SIZE * i && left >= 0
        invariant buffer == Flat(blocks[..i])
      {
        if left >= BLOCK_SIZE {
          FlatAppend(blocks[..i], blocks[i]);
          assert blocks[..i + 1] == blocks[..i] + [blocks[i]];
          buffer, left, i := buffer + blocks[i], left - BLOCK_SIZE, i + 1;
        } else {
          assert i == |blocks| - 1;
          return buffer + blocks[i][..left];
        }
      }
      Whole();
    }

    lemma Whole()
      requires Valid()
      ensures forall i :: 0 <= i <= |blocks| && len == BLOCK_SIZE * i ==> Flat(blocks[..i]) == Contents()
    {
      forall i | 0 <= i <= |blocks| && len == BLOCK_SIZE * i
        ensures Flat(blocks[..i]) == Contents()
      {
        var n := |blocks| - 1;
        if i == n {
          assert blocks[n][..0] == [];
        } else {
          assert i == n + 1 && ptr == BLOCK_SIZE;
          FlatAppend(blocks[..n], blocks[n]);
          assert blocks[..i] == blocks[..n] + [blocks[n]];
          assert blocks[n][..ptr] == blocks[n];
        }
      }
    }
  }

  // ------------------------------------------------------------ packing

  /** Every value lies at most MAX_DEPTH tables deep. */
  ghost predicate Fits(v: Value, depth: nat)
    decreases v
  {
    && depth <= MAX_DEPTH
    && (v.Table? ==>
          && (forall k :: 0 <= k < |v.arr| ==> Fits(v.arr[k], depth + 1))
          && (forall k :: 0 <= k < |v.hash| ==> FitsEntry(v.hash[k], depth + 1)))
  }

  ghost predicate FitsEntry(e: Entry, depth: nat)
    decreases e
  {
    Fits(e.key, depth) && Fits(e.val, depth)
  }

  lemma {:induction false} EncodeOneMore(vs: seq<Value>, v: Value)
    requires Proper(v) && forall k :: 0 <= k < |vs| ==> Proper(vs[k])
    ensures EncodeAll(vs + [v]) == EncodeAll(vs) + Encode(v)
  {
    hide Encode, EncodeAll;
    EncodeFirst(vs + [v]);
    if vs == [] {
      Nothing([]);
      assert (vs + [v])[1..] == [];
      assert Encode(v) + [] == [] + Encode(v);
    } else {
      EncodeFirst(vs);
      EncodeOneMore(vs[1..], v);
      assert (vs + [v])[1..] == vs[1..] + [v];
      Assoc(Encode(vs[0]), EncodeAll(vs[1..]), Encode(v));
    }
  }

  lemma {:induction false} EncodeOneMoreEntry(es: seq<Entry>, e: Entry)
    requires e.key != Nil && Proper(e.key) && Proper(e.val)
    requires forall k :: 0 <= k < |es| ==> es[k].key != Nil && Proper(es[k].key) && Proper(es[k].val)
    ensures EncodeEntries(es + [e]) == EncodeEntries(es) + EncodeEntry(e)
  {
    hide Encode, EncodeEntries, EncodeEntry;
    EncodeFirstEntry(es + [e]);
    if es == [] {
      Nothing([]);
      assert (es + [e])[1..] == [];
      assert EncodeEntry(e) + [] == [] + EncodeEntry(e);
    } else {
      EncodeFirstEntry(es);
      EncodeOneMoreEntry(es[1..], e);
      assert (es + [e])[1..] == es[1..] + [e];
      Assoc(EncodeEntry(es[0]), EncodeEntries(es[1..]), EncodeEntry(e));
    }
  }

  /** wb_integer. */
  method PackInt(wb: WriteBlock, i: int, blank: Block)
    requires wb.Valid() && -0x8000_0000_0000_0000 <= i < 0x8000_0000_0000_0000
    modifies wb
    ensures wb.Valid() && wb.Contents() == old(wb.Contents()) + EncodeInt(i)
  {
    hide Bytes, Flat;
    if i == 0 {
      wb.Push([Tag(NUMBER, 0)], blank);
      return;
    }
    var cookie, n, x;
    if i < -0x8000_0000 || i > 0x7fff_ffff {
      cookie, n, x := 6, 8, Unsigned(i, 0x1_0000_0000_0000_0000);
    } else if i < 0 {
      cookie, n, x := 4, 4, Unsigned(i, 0x1_0000_0000);
    } else if i < 0x100 {
      cookie, n, x := 1, 1, i;
    } else if i < 0x10000 {
      cookie, n, x := 2, 2, i;
    } else {
      cookie, n, x := 4, 4, i;
    }
    wb.Push([Tag(NUMBER, cookie)], blank);
    wb.Push(Bytes(x, n), blank);
    Assoc(old(wb.Contents()), [Tag(NUMBER, cookie)], Bytes(x, n));
  }

  /** wb_string. */
  method PackStr(wb: WriteBlock, str: Text, blank: Block)
    requires wb.Valid() && |str| <= INT_MAX
    modifies wb
    ensures wb.Valid() && wb.Contents() == old(wb.Contents()) + EncodeStr(str)
  {
    hide Bytes, Flat;
    if |str| < MAX_COOKIE {
      wb.Push([Tag(SHORT_STRING, |str|)], blank);
      if |str| > 0 {
        wb.Push(str, blank);
      } else {
        assert wb.Contents() + str == wb.Contents();
      }
      Assoc(old(wb.Contents()), [Tag(SHORT_STRING, |str|)], str);
    } else {
      var n := if |str| < 0x10000 then 2 else 4;
      wb.Push([Tag(LONG_STRING, n)], blank);
      wb.Push(Bytes(|str|, n), blank);
      wb.Push(str, blank);
      Assoc(old(wb.Contents()), [Tag(LONG_STRING, n)], Bytes(|str|, n));
      Assoc(old(wb.Contents()), [Tag(LONG_STRING, n)] + Bytes(|str|, n), str);
    }
  }

  /** The first part of wb_table_array. */
  method PackHead(wb: WriteBlock, n: nat, blank: Block)
    requires wb.Valid() && n <= INT_MAX
    modifies wb
    ensures wb.Valid() && wb.Contents() == old(wb.Contents()) + TableHead(n)
  {
    hide Flat, EncodeInt;
    if n >= MAX_COOKIE - 1 {
      wb.Push([Tag(TABLE, MAX_COOKIE - 1)], blank);
      PackInt(wb, n, blank);
      Assoc(old(wb.Contents()), [Tag(TABLE, MAX_COOKIE - 1)], EncodeInt(n));
    } else {
      wb.Push([Tag(TABLE, n)], blank);
    }
  }

  /** pack_one: fails exactly for tables nested too deep. */
  method PackOne(wb: WriteBlock, v: Value, depth: nat, blank: Block) returns (ok: bool)
    requires wb.Valid() && Proper(v)
    modifies wb
    ensures wb.Valid() && (ok <==> Fits(v, depth))
    ensures ok ==> wb.Contents() == old(wb.Contents()) + Encode(v)
    decreases v, 1
  {
    if depth > MAX_DEPTH {
      return false;
    }
    ok := true;
    match v
    case Nil => wb.Push([Tag(NIL, 0)], blank);
    case Bool(b) => wb.Push([Tag(BOOLEAN, if b then 1 else 0)], blank);
    case Int(i) => PackInt(wb, i, blank);
    case Real(bits) =>
      wb.Push([Tag(NUMBER, 8)], blank);
      wb.Push(bits, blank);
      Assoc(old(wb.Contents()), [Tag(NUMBER, 8)], bits);
    case Pointer(bits) =>
      wb.Push([Tag(USERDATA, 0)], blank);
      wb.Push(bits, blank);
      Assoc(old(wb.Contents()), [Tag(USERDATA, 0)], bits);
    case Str(str) => PackStr(wb, str, blank);
    case Table(_, _) => ok := PackTable(wb, v, depth + 1, blank);
  }

  /** wb_table, with the depth of the table's contents. */
  method PackTable(wb: WriteBlock, v: Value, depth: nat, blank: Block) returns (ok: bool)
    requires wb.Valid() && Proper(v) && v.Table?
    modifies wb
    ensures wb.Valid()
    ensures ok <==> (forall k :: 0 <= k < |v.arr| ==> Fits(v.arr[k], depth)) && (forall k :: 0 <= k < |v.hash| ==> FitsEntry(v.hash[k], depth))
    ensures ok ==> wb.Contents() == old(wb.Contents()) + Encode(v)
    decreases v, 0
  {
    EncodeTable(v);
    hide Encode, EncodeAll, EncodeEntries, Fits, FitsEntry, TableHead, Flat;
    ghost var before := wb.Contents();
    PackHead(wb, |v.arr|, blank);
    ok := PackArray(wb, v.arr, depth, blank);
    if !ok {
      return;
    }
    ok := PackEntries(wb, v.hash, depth, blank);
    if !ok {
      return;
    }
    wb.Push([Tag(NIL, 0)], blank);
    Assoc(before, TableHead(|v.arr|), EncodeAll(v.arr));
    Assoc(before, TableHead(|v.arr|) + EncodeAll(v.arr), EncodeEntries(v.hash));
    Assoc(before, TableHead(|v.arr|) + EncodeAll(v.arr) + EncodeEntries(v.hash), [Tag(NIL, 0)]);
  }

  /** The loop of wb_table_array. */
  method PackArray(wb: WriteBlock, arr: seq<Value>, depth: nat, blank: Block) returns (ok: bool)
    requires wb.Valid() && forall k :: 0 <= k < |arr| ==> Proper(arr[k])
    modifies wb
    ensures wb.Valid() && (ok <==> forall k :: 0 <= k < |arr| ==> Fits(arr[k], depth))
    ensures ok ==> wb.Contents() == old(wb.Contents()) + EncodeAll(arr)
    decreases arr, 2
  {
    Nothing([]);
    hide Encode, EncodeAll, Fits, Flat, Proper;
    ghost var before := wb.Contents();
    assert before == before + [];
    for i := 0 to |arr|
      invariant wb.Valid() && wb.Contents() == before + EncodeAll(arr[..i])
      invariant forall k :: 0 <= k < i ==> Fits(arr[k], depth)
    {
      ok := PackOne(wb, arr[i], depth, blank);
      if !ok {
        return;
      }
      assert arr[..i + 1] == arr[..i] + [arr[i]];
      EncodeOneMore(arr[..i], arr[i]);
      Assoc(before, EncodeAll(arr[..i]), Encode(arr[i]));
    }
    assert arr[..|arr|] == arr;
    ok := true;
  }

  /** The loop of wb_table_hash. */
  method PackEntries(wb: WriteBlock, es: seq<Entry>, depth: nat, blank: Block) returns (ok: bool)
    requires wb.Valid() && forall k :: 0 <= k < |es| ==> es[k].key != Nil && Proper(es[k].key) && Proper(es[k].val)
    modifies wb
    ensures wb.Valid() && (ok <==> forall k :: 0 <= k < |es| ==> FitsEntry(es[k], depth))
    ensures ok ==> wb.Contents() == old(wb.Contents()) + EncodeEntries(es)
    decreases es, 2
  {
    Nothing([]);
    hide Encode, EncodeEntries, EncodeEntry, FitsEntry, Flat, Proper;
    ghost var before := wb.Contents();
    assert before == before + [];
    for i := 0 to |es|
      invariant wb.Valid() && wb.Contents() == before + EncodeEntries(es[..i])
      invariant forall k :: 0 <= k < i ==> FitsEntry(es[k], depth)
    {
      ok := PackEntry(wb, es[i], depth, blank);
      if !ok {
        return;
      }
      assert es[..i + 1] == es[..i] + [es[i]];
      EncodeOneMoreEntry(es[..i], es[i]);
      Assoc(before, EncodeEntries(es[..i]), EncodeEntry(es[i]));
    }
    assert es[..|es|] == es;
    ok := true;
  }

  method PackEntry(wb: WriteBlock, e: Entry, depth: nat, blank: Block) returns (ok: bool)
    requires wb.Valid() && Proper(e.key) && Proper(e.val)
    modifies wb
    ensures wb.Valid() && (ok <==> FitsEntry(e, depth))
    ensures ok ==> wb.Contents() == old(wb.Contents()) + EncodeEntry(e)
    decreases e, 2
  {
    hide Encode, Flat, Fits;
    ok := PackOne(wb, e.key, depth, blank);
    if ok {
      ok := PackOne(wb, e.val, depth, blank);
      Assoc(old(wb.Contents()), Encode(e.key), Encode(e.val));
    }
  }

  /** luaseri_pack. */
  method Pack(vs: seq<Value>, blank: Block) returns (ok: bool, buffer: Text)
    requires forall k :: 0 <= k < |vs| ==> Proper(vs[k])
    ensures ok <==> forall k :: 0 <= k < |vs| ==> Fits(vs[k], 0)
    ensures ok ==> buffer == EncodeAll(vs) && DecodeAll(buffer) == Got(vs, [])
  {
    hide Encode, EncodeAll, Fits, Flat, DecodeAll;
    var wb := new WriteBlock(blank);
    ok := PackArray(wb, vs, 0, blank);
    buffer := [];
    if ok {
      buffer := wb.Flatten();
      ListReadsBack(vs);
    }
  }

  // ------------------------------------------------------------ unpacking

  class ReadBlock {
    const buffer: Text
    var ptr: nat
    var len: nat

    ghost predicate Valid()
      reads this
    {
      ptr + len == |buffer|
    }

    /** The bytes not read yet. */
    ghost function Rest(): Text
      reads this
      requires Valid()
    {
      buffer[ptr..]
    }

    constructor (buffer: Text)
      ensures Valid() && Rest() == buffer && this.buffer == buffer
    {
      this.buffer, ptr, len := buffer, 0, |buffer|;
    }

    /** rb_read. */
    method Read(n: nat) returns (ok: bool, bytes: Text)
      requires Valid()
      modifies this
      ensures Valid() && Reads(Take(old(Rest()), n), ok, bytes, Rest())
      ensures !ok ==> Rest() == old(Rest())
    {
      if len < n {
        return false, [];
      }
      ok, bytes := true, buffer[ptr..ptr + n];
      assert Rest()[..n] == bytes && Rest()[n..] == buffer[ptr + n..];
      ptr, len := ptr + n, len - n;
    }
  }

  /** A reading method did what the specification says. */
  ghost predicate Reads<T>(spec: Opt<T>, ok: bool, v: T, rest: Text) {
    if ok then spec == Got(v, rest) else spec == Bad
  }

  /** get_integer. */
  method GetInteger(rb: ReadBlock, cookie: nat) returns (ok: bool, i: int)
    requires rb.Valid()
    modifies rb
    ensures rb.Valid() && Reads(DecodeInt(old(rb.Rest()), cookie), ok, i, rb.Rest())
  {
    ok, i := false, 0;
    var bytes: Text := [];
    if cookie == 0 {
      ok, bytes := rb.Read(0);
    } else if cookie == 1 {
      ok, bytes := rb.Read(1);
    } else if cookie == 2 {
      ok, bytes := rb.Read(2);
    } else if cookie == 4 {
      ok, bytes := rb.Read(4);
    } else if cookie == 6 {
      ok, bytes := rb.Read(8);
    }
    if ok {
      i := Number(bytes);
      if cookie == 4 {
        i := Signed(i, 0x1_0000_0000);
      } else if cookie == 6 {
        i := Signed(i, 0x1_0000_0000_0000_0000);
      }
    }
  }

  /** get_buffer. */
  method GetBuffer(rb: ReadBlock, n: nat) returns (ok: bool, v: Value)
    requires rb.Valid()
    modifies rb
    ensures rb.Valid() && Reads(DecodeStr(old(rb.Rest()), n), ok, v, rb.Rest())
  {
    var bytes;
    ok, bytes := rb.Read(n);
    v := Str(bytes);
  }

  method GetLongBuffer(rb: ReadBlock, cookie: nat) returns (ok: bool, v: Value)
    requires rb.Valid()
    modifies rb
    ensures rb.Valid() && Reads(DecodeLongStr(old(rb.Rest()), cookie), ok, v, rb.Rest())
  {
    ok, v := false, Nil;
    if cookie == 2 || cookie == 4 {
      var bytes;
      ok, bytes := rb.Read(cookie);
      if ok {
        ok, v := GetBuffer(rb, Number(bytes));
      }
    }
  }

  /** The size in unpack_table. */
  method GetSize(rb: ReadBlock, cookie: nat) returns (ok: bool, n: int)
    requires rb.Valid()
    modifies rb
    ensures rb.Valid() && Reads(DecodeSize(old(rb.Rest()), cookie), ok, n, rb.Rest())
  {
    if cookie != MAX_COOKIE - 1 {
      return true, cookie;
    }
    hide DecodeInt;
    var bytes;
    ok, bytes := rb.Read(1);
    n := 0;
    if ok {
      ok := bytes[0] % 8 == NUMBER && bytes[0] / 8 != 8;
      if ok {
        ok, n := GetInteger(rb, bytes[0] / 8);
      }
    }
  }

  /** unpack_one, with push_value. */
  method UnpackOne(rb: ReadBlock) returns (ok: bool, v: Value)
    requires rb.Valid()
    modifies rb
    ensures rb.Valid() && Reads(Decode(old(rb.Rest())), ok, v, rb.Rest())
    decreases |rb.Rest()|, 0
  {
    hide DecodeInt, DecodeStr, DecodeLongStr;
    v := Nil;
    var bytes;
    ok, bytes := rb.Read(1);
    if !ok {
      return;
    }
    ghost var start := rb.Rest();
    var kind, cookie := bytes[0] % 8, bytes[0] / 8;
    if kind == BOOLEAN {
      v := Bool(cookie != 0);
    } else if kind == NUMBER && cookie == 8 {
      ok, bytes := rb.Read(8);
      v := Real(bytes);
    } else if kind == NUMBER {
      var i;
      ok, i := GetInteger(rb, cookie);
      v := Int(i);
    } else if kind == USERDATA {
      ok, bytes := rb.Read(8);
      v := Pointer(bytes);
    } else if kind == SHORT_STRING {
      ok, v := GetBuffer(rb, cookie);
    } else if kind == LONG_STRING {
      ok, v := GetLongBuffer(rb, cookie);
    } else if kind == TABLE {
      ok, v := UnpackTable(rb, cookie);
    } else if kind != NIL {
      ok := false;
    }
  }

  ghost function DecodeRest(s: Text, cookie: nat): Opt<Value> {
    var n := DecodeSize(s, cookie);
    if n == Bad then Bad
    else
      var a := DecodeMany(n.rest, if n.v < 0 then 0 else n.v);
      if a == Bad then Bad
      else
        var h := DecodeEntries(a.rest);
        if h == Bad then Bad else Got(Table(a.v, h.v), h.rest)
  }

  /** unpack_table. */
  method UnpackTable(rb: ReadBlock, cookie: nat) returns (ok: bool, v: Value)
    requires rb.Valid()
    modifies rb
    ensures rb.Valid() && Reads(DecodeRest(old(rb.Rest()), cookie), ok, v, rb.Rest())
    decreases |rb.Rest()|, 2
  {
    hide DecodeSize, DecodeMany, DecodeEntries;
    v := Nil;
    var n, arr, hash;
    ok, n := GetSize(rb, cookie);
    if ok {
      ok, arr := UnpackMany(rb, if n < 0 then 0 else n);
      if ok {
        ok, hash := UnpackEntries(rb);
        if ok {
          v := Table(arr, hash);
        }
      }
    }
  }

  /** What remains to be read, after the values vs. */
  ghost function Prepend<T>(vs: seq<T>, r: Opt<seq<T>>): Opt<seq<T>> {
    if r == Bad then Bad else Got(vs + r.v, r.rest)
  }

  lemma PrependOne<T>(vs: seq<T>, v: T, r: Opt<seq<T>>)
    ensures Prepend(vs, Prepend([v], r)) == Prepend(vs + [v], r)
    ensures Prepend([], r) == r
  {
    if r.Got? {
      assert vs + ([v] + r.v) == (vs + [v]) + r.v && [] + r.v == r.v;
    }
  }

  lemma ManyStep(s: Text, n: nat)
    ensures n == 0 ==> DecodeMany(s, n) == Got([], s)
    ensures n > 0 ==> DecodeMany(s, n) == if Decode(s) == Bad then Bad else Prepend([Decode(s).v], DecodeMany(Decode(s).rest, n - 1))
  {
  }

  /** The loop of unpack_table over the array part. */
  method UnpackMany(rb: ReadBlock, n: nat) returns (ok: bool, vs: seq<Value>)
    requires rb.Valid()
    modifies rb
    ensures rb.Valid() && Reads(DecodeMany(old(rb.Rest()), n), ok, vs, rb.Rest())
    decreases |rb.Rest()|, 1
  {
    hide DecodeMany, Decode, Prepend;
    vs := [];
    ghost var start := rb.Rest();
    PrependOne([], Nil, DecodeMany(start, n));
    for i := 0 to n
      invariant rb.Valid() && |rb.Rest()| <= |start| && (i > 0 ==> |rb.Rest()| < |start|)
      invariant DecodeMany(start, n) == Prepend(vs, DecodeMany(rb.Rest(), n - i))
    {
      ManyStep(rb.Rest(), n - i);
      var v;
      ok, v := UnpackOne(rb);
      if !ok {
        PrependBad(vs);
        return;
      }
      PrependOne(vs, v, DecodeMany(rb.Rest(), n - i - 1));
      vs := vs + [v];
    }
    ManyStep(rb.Rest(), 0);
    PrependNone(vs, rb.Rest());
    ok := true;
  }

  lemma PrependBad<T>(vs: seq<T>)
    ensures Prepend(vs, Bad) == Bad
  {
  }

  lemma PrependNone<T>(vs: seq<T>, rest: Text)
    ensures Prepend(vs, Got([], rest)) == Got(vs, rest)
  {
    assert vs + [] == vs;
  }

  lemma EntriesStep(s: Text)
    ensures DecodeEntries(s) ==
      var k := Decode(s);
      if k == Bad then Bad
      else if k.v == Nil then Got([], k.rest)
      else
        var v := Decode(k.rest);
        if v == Bad then Bad else Prepend([Entry(k.v, v.v)], DecodeEntries(v.rest))
  {
  }

  /** The loop of unpack_table over the other entries, until a nil key. */
  method UnpackEntries(rb: ReadBlock) returns (ok: bool, es: seq<Entry>)
    requires rb.Valid()
    modifies rb
    ensures rb.Valid() && Reads(DecodeEntries(old(rb.Rest())), ok, es, rb.Rest())
    decreases |rb.Rest()|, 1
  {
    hide DecodeEntries, Decode, Prepend;
    es := [];
    ghost var start := rb.Rest();
    PrependOne([], Entry(Nil, Nil), DecodeEntries(start));
    while true
      invariant rb.Valid() && |rb.Rest()| <= |start|
      invariant DecodeEntries(start) == Prepend(es, DecodeEntries(rb.Rest()))
      decreases |rb.Rest()|
    {
      EntriesStep(rb.Rest());
      PrependBad(es);
      var key, val;
      ok, key := UnpackOne(rb);
      if !ok {
        return;
      }
      if key == Nil {
        PrependNone(es, rb.Rest());
        return;
      }
      ok, val := UnpackOne(rb);
      if !ok {
        return;
      }
      PrependOne(es, Entry(key, val), DecodeEntries(rb.Rest()));
      es := es + [Entry(key, val)];
    }
  }

  lemma AllStep(s: Text)
    ensures DecodeAll(s) == if s == [] then Got([], []) else if Decode(s) == Bad then Bad else Prepend([Decode(s).v], DecodeAll(Decode(s).rest))
  {
  }

  /** luaseri_unpack: values until the buffer is used up. */
  method Unpack(buffer: Text) returns (ok: bool, vs: seq<Value>)
    ensures Reads(DecodeAll(buffer), ok, vs, [])
  {
    hide DecodeAll, Decode, Prepend;
    var rb := new ReadBlock(buffer);
    vs := [];
    PrependOne([], Nil, DecodeAll(buffer));
    while rb.len > 0
      invariant rb.Valid() && DecodeAll(buffer) == Prepend(vs, DecodeAll(rb.Rest()))
      modifies rb
      decreases |rb.Rest()|
    {
      AllStep(rb.Rest());
      var v;
      ok, v := UnpackOne(rb);
      if !ok {
        PrependBad(vs);
        return;
      }
      PrependOne(vs, v, DecodeAll(rb.Rest()));
      vs := vs + [v];
    }
    AllStep(rb.Rest());
    PrependNone(vs, []);
    ok := true;
  }

  /** Every list of values that packs comes back from the buffer as it was. */
  method RoundTrip(vs: seq<Value>, blank: Block) returns (ok: bool, back: seq<Value>)
    requires forall k :: 0 <= k < |vs| ==> Proper(vs[k])
    ensures ok <==> forall k :: 0 <= k < |vs| ==> Fits(vs[k], 0)
    ensures ok ==> back == vs
  {
    hide Encode, EncodeAll, Fits, DecodeAll;
    var buffer;
    ok, buffer := Pack(vs, blank);
    back := [];
    if ok {
      var read;
      read, back := Unpack(buffer);
    }
  }
}
