/** The byte format of lua-seri.c: what a value looks like packed, how it is read back, and why reading
    back gives the same value. */
module SeriFormat {
  import opened Collections
  import opened Endian

  const MAX_COOKIE := 32

  const NIL := 0
  const BOOLEAN := 1
  const NUMBER := 2
  const USERDATA := 3
  const SHORT_STRING := 4
  const LONG_STRING := 5
  const TABLE := 6

  type Text = seq<Byte>

  /** A Lua value.  A table is its array part (whose border is at |arr|, so elements may be nil) and the
      other entries in the order lua_next visits them.  A double and a pointer are their eight bytes. */
  datatype Value =
    | Nil
    | Bool(b: bool)
    | Int(i: int)
    | Real(bits: Text)
    | Pointer(bits: Text)
    | Str(s: Text)
    | Table(arr: seq<Value>, hash: seq<Entry>)

  datatype Entry = Entry(key: Value, val: Value)

  const INT_MAX := 0x7fff_ffff

  /** What Lua values are like: 64-bit integers, no nil keys, strings and arrays counted by an int. */
  ghost predicate Proper(v: Value) {
    match v
    case Nil => true
    case Bool(_) => true
    case Int(i) => -0x8000_0000_0000_0000 <= i < 0x8000_0000_0000_0000
    case Real(bits) => |bits| == 8
    case Pointer(bits) => |bits| == 8
    case Str(s) => |s| <= INT_MAX
    case Table(arr, hash) =>
      && |arr| <= INT_MAX && (forall k :: 0 <= k < |arr| ==> Proper(arr[k]))
      && (forall k :: 0 <= k < |hash| ==> hash[k].key != Nil && Proper(hash[k].key) && Proper(hash[k].val))
  }

  // ------------------------------------------------------------ writing

  /** COMBINE_TYPE. */
  function Tag(t: nat, cookie: nat): (b: Byte)
    requires t < 8 && cookie < 32
    ensures b % 8 == t && b / 8 == cookie
  {
    t + 8 * cookie
  }

  /** Two's complement in n bits, range being 2^n. */
  function Unsigned(i: int, range: nat): int { if i < 0 then i + range else i }

  /** wb_integer. */
  function EncodeInt(i: int): Text
    requires -0x8000_0000_0000_0000 <= i < 0x8000_0000_0000_0000
  {
    if i == 0 then [Tag(NUMBER, 0)]
    else if i < -0x8000_0000 || i > 0x7fff_ffff then [Tag(NUMBER, 6)] + Bytes(Unsigned(i, 0x1_0000_0000_0000_0000), 8)
    else if i < 0 then [Tag(NUMBER, 4)] + Bytes(Unsigned(i, 0x1_0000_0000), 4)
    else if i < 0x100 then [Tag(NUMBER, 1)] + Bytes(i, 1)
    else if i < 0x10000 then [Tag(NUMBER, 2)] + Bytes(i, 2)
    else [Tag(NUMBER, 4)] + Bytes(i, 4)
  }

  /** wb_string. */
  function EncodeStr(s: Text): Text
    requires |s| <= INT_MAX
  {
    if |s| < MAX_COOKIE then [Tag(SHORT_STRING, |s|)] + s
    else if |s| < 0x10000 then [Tag(LONG_STRING, 2)] + Bytes(|s|, 2) + s
    else [Tag(LONG_STRING, 4)] + Bytes(|s|, 4) + s
  }

  /** The head wb_table_array writes. */
  function TableHead(n: nat): Text
    requires n <= INT_MAX
  {
    if n >= MAX_COOKIE - 1 then [Tag(TABLE, MAX_COOKIE - 1)] + EncodeInt(n) else [Tag(TABLE, n)]
  }

  /** pack_one. */
  ghost function Encode(v: Value): Text
    requires Proper(v)
  {
    match v
    case Nil => [Tag(NIL, 0)]
    case Bool(b) => [Tag(BOOLEAN, if b then 1 else 0)]
    case Int(i) => EncodeInt(i)
    case Real(bits) => [Tag(NUMBER, 8)] + bits
    case Pointer(bits) => [Tag(USERDATA, 0)] + bits
    case Str(s) => EncodeStr(s)
    case Table(arr, hash) => TableHead(|arr|) + EncodeAll(arr) + EncodeEntries(hash) + [Tag(NIL, 0)]
  }

  ghost function EncodeAll(vs: seq<Value>): Text
    requires forall k :: 0 <= k < |vs| ==> Proper(vs[k])
  {
    if vs == [] then [] else Encode(vs[0]) + EncodeAll(vs[1..])
  }

  ghost function EncodeEntries(es: seq<Entry>): Text
    requires forall k :: 0 <= k < |es| ==> es[k].key != Nil && Proper(es[k].key) && Proper(es[k].val)
  {
    if es == [] then [] else EncodeEntry(es[0]) + EncodeEntries(es[1..])
  }

  ghost function EncodeEntry(e: Entry): Text
    requires Proper(e.key) && Proper(e.val)
  {
    Encode(e.key) + Encode(e.val)
  }

  /** A tag byte, then n bytes that hold x. */
  ghost predicate TagAndNumber(s: Text, tag: nat, n: nat, x: int) {
    |s| == 1 + n && s[0] == tag && Spells(s[1..], x)
  }

  lemma TagThen(tag: Byte, n: nat, x: nat)
    requires n in {2, 4, 8} && x < Range(n)
    ensures TagAndNumber([tag] + Bytes(x, n), tag, n, x)
  {
    hide Spells;
    BytesSpell(x, n);
    assert ([tag] + Bytes(x, n))[1..] == Bytes(x, n);
  }

  /** Integers on the wire: a tag that gives the width, the shortest that holds the number, and the number in
      two's complement, least significant byte first. */
  lemma IntOnTheWire(i: int)
    requires -0x8000_0000_0000_0000 <= i < 0x8000_0000_0000_0000
    ensures var s := EncodeInt(i);
      && (i == 0 ==> s == [2])
      && (0 < i < 0x100 ==> s == [10, i])
      && (0x100 <= i < 0x1_0000 ==> TagAndNumber(s, 18, 2, i))
      && (0x1_0000 <= i < 0x8000_0000 ==> TagAndNumber(s, 34, 4, i))
      && (-0x8000_0000 <= i < 0 ==> TagAndNumber(s, 34, 4, i + 0x1_0000_0000))
      && (i >= 0x8000_0000 ==> TagAndNumber(s, 50, 8, i))
      && (i < -0x8000_0000 ==> TagAndNumber(s, 50, 8, i + 0x1_0000_0000_0000_0000))
  {
    hide Bytes, Spells, Range;
    Ranges();
    if 0 < i < 0x100 {
      OneByte(i);
    } else if 0x100 <= i < 0x1_0000 {
      TagThen(18, 2, i);
    } else if 0x1_0000 <= i < 0x8000_0000 {
      TagThen(34, 4, i);
    } else if -0x8000_0000 <= i < 0 {
      TagThen(34, 4, i + 0x1_0000_0000);
    } else if i != 0 {
      TagThen(50, 8, Unsigned(i, 0x1_0000_0000_0000_0000));
    }
  }

  lemma OneByte(x: Byte)
    ensures Bytes(x, 1) == [x]
  {
  }

  /** Everything else on the wire: a short string has its length in the tag, a long one a length of two or four
      bytes after it; a table starts with the size of its array part, in the tag if it is below 31, and ends
      with a nil. */
  lemma OnTheWire(v: Value)
    requires Proper(v) && !v.Int?
    ensures var s := Encode(v);
      match v
      case Nil => s == [0]
      case Bool(b) => s == [if b then 9 else 1]
      case Int(_) => true
      case Real(bits) => s == [66] + bits
      case Pointer(bits) => s == [3] + bits
      case Str(text) =>
        && (|text| < 32 ==> s == [4 + 8 * |text|] + text)
        && (32 <= |text| < 0x1_0000 ==> |s| == 3 + |text| && TagAndNumber(s[..3], 21, 2, |text|) && s[3..] == text)
        && (|text| >= 0x1_0000 ==> |s| == 5 + |text| && TagAndNumber(s[..5], 37, 4, |text|) && s[5..] == text)
      case Table(arr, hash) =>
        var items := EncodeAll(arr) + EncodeEntries(hash) + [0];
        s == (if |arr| < 31 then [6 + 8 * |arr|] else [254] + EncodeInt(|arr|)) + items
  {
    hide Bytes, TagAndNumber, EncodeInt, Range;
    Ranges();
    match v
    case Str(text) =>
      if 32 <= |text| < 0x1_0000 {
        TagThen(21, 2, |text|);
        var head := [21] + Bytes(|text|, 2);
        assert Encode(v) == head + text && (head + text)[..3] == head && (head + text)[3..] == text;
      } else if |text| >= 0x1_0000 {
        TagThen(37, 4, |text|);
        var head := [37] + Bytes(|text|, 4);
        assert Encode(v) == head + text && (head + text)[..5] == head && (head + text)[5..] == text;
      }
    case Table(arr, hash) =>
      var head, a, h := TableHead(|arr|), EncodeAll(arr), EncodeEntries(hash);
      assert head + a + h + [0] == head + (a + h + [0]);
    case _ =>
  }

  // ------------------------------------------------------------ reading

  datatype Opt<T> = Got(v: T, rest: Text) | Bad

  /** rb_read. */
  function Take(s: Text, n: nat): (r: Opt<Text>)
    ensures r.Got? <==> n <= |s|
    ensures r.Got? ==> s == r.v + r.rest && |r.v| == n
  {
    if |s| < n then Bad else Got(s[..n], s[n..])
  }

  /** get_integer. */
  function DecodeInt(s: Text, cookie: nat): (r: Opt<int>)
    ensures r.Got? ==> |r.rest| <= |s|
  {
    var n := if cookie == 0 then 0 else if cookie == 1 then 1 else if cookie == 2 then 2 else if cookie == 4 then 4 else 8;
    var t := Take(s, n);
    if cookie !in {0, 1, 2, 4, 6} || t == Bad then Bad
    else if cookie == 4 then Got(Signed(Number(t.v), 0x1_0000_0000), t.rest)
    else if cookie == 6 then Got(Signed(Number(t.v), 0x1_0000_0000_0000_0000), t.rest)
    else Got(Number(t.v), t.rest)
  }

  function DecodeStr(s: Text, n: nat): (r: Opt<Value>)
    ensures r.Got? ==> |r.rest| <= |s|
  {
    var t := Take(s, n);
    if t == Bad then Bad else Got(Str(t.v), t.rest)
  }

  function DecodeLongStr(s: Text, cookie: nat): (r: Opt<Value>)
    ensures r.Got? ==> |r.rest| <= |s|
  {
    if cookie != 2 && cookie != 4 then Bad
    else
      var t := Take(s, cookie);
      if t == Bad then Bad else DecodeStr(t.rest, Number(t.v))
  }

  /** The size of the array part in unpack_table. */
  function DecodeSize(s: Text, cookie: nat): (r: Opt<int>)
    ensures r.Got? ==> |r.rest| <= |s|
  {
    if cookie != MAX_COOKIE - 1 then Got(cookie, s)
    else if s == [] || s[0] % 8 != NUMBER || s[0] / 8 == 8 then Bad
    else DecodeInt(s[1..], s[0] / 8)
  }

  /** unpack_one, with push_value. */
  function Decode(s: Text): (r: Opt<Value>)
    ensures r.Got? ==> |r.rest| < |s|
    decreases |s|, 0
  {
    if s == [] then Bad
    else
      var cookie, rest := s[0] / 8, s[1..];
      match s[0] % 8
      case 0 => Got(Nil, rest)
      case 1 => Got(Bool(cookie != 0), rest)
      case 2 =>
        if cookie == 8 then (var t := Take(rest, 8); if t == Bad then Bad else Got(Real(t.v), t.rest))
        else (var t := DecodeInt(rest, cookie); if t == Bad then Bad else Got(Int(t.v), t.rest))
      case 3 => var t := Take(rest, 8); if t == Bad then Bad else Got(Pointer(t.v), t.rest)
      case 4 => DecodeStr(rest, cookie)
      case 5 => DecodeLongStr(rest, cookie)
      case 6 =>
        var n := DecodeSize(rest, cookie);
        if n == Bad then Bad
        else
          var a := DecodeMany(n.rest, if n.v < 0 then 0 else n.v);
          if a == Bad then Bad
          else
            var h := DecodeEntries(a.rest);
            if h == Bad then Bad else Got(Table(a.v, h.v), h.rest)
      case _ => Bad
  }

  function DecodeMany(s: Text, n: nat): (r: Opt<seq<Value>>)
    ensures r.Got? ==> |r.rest| <= |s|
    decreases |s|, 1
  {
    if n == 0 then Got([], s)
    else
      var v := Decode(s);
      if v == Bad then Bad
      else
        var vs := DecodeMany(v.rest, n - 1);
        if vs == Bad then Bad else Got([v.v] + vs.v, vs.rest)
  }

  /** Entries up to a nil in place of a key. */
  function DecodeEntries(s: Text): (r: Opt<seq<Entry>>)
    ensures r.Got? ==> |r.rest| < |s|
    decreases |s|, 1
  {
    var k := Decode(s);
    if k == Bad then Bad
    else if k.v == Nil then Got([], k.rest)
    else
      var v := Decode(k.rest);
      if v == Bad then Bad
      else
        var es := DecodeEntries(v.rest);
        if es == Bad then Bad else Got([Entry(k.v, v.v)] + es.v, es.rest)
  }

  // ------------------------------------------------------------ round trip

  lemma TakeBack(s: Text, more: Text)
    ensures Take(s + more, |s|) == Got(s, more)
  {
  }

  lemma NumberBack(x: nat, n: nat, more: Text)
    requires x < Range(n)
    ensures Take(Bytes(x, n) + more, n) == Got(Bytes(x, n), more) && Number(Bytes(x, n)) == x
  {
  }

  lemma IntBack(i: int, more: Text)
    requires -0x8000_0000_0000_0000 <= i < 0x8000_0000_0000_0000
    ensures EncodeInt(i) != []
    ensures var s := EncodeInt(i) + more;
      s[0] % 8 == NUMBER && s[0] / 8 != 8 && DecodeInt(s[1..], s[0] / 8) == Got(i, more)
  {
    hide Bytes, Number, Range, Take;
    Ranges();
    var s := EncodeInt(i) + more;
    if i == 0 {
      TakeBack([], more);
      assert s[1..] == more == [] + more;
      NoBytes();
    } else if i < -0x8000_0000 || i > 0x7fff_ffff {
      NumberBack(Unsigned(i, 0x1_0000_0000_0000_0000), 8, more);
      assert s[1..] == Bytes(Unsigned(i, 0x1_0000_0000_0000_0000), 8) + more;
    } else if i < 0 {
      NumberBack(Unsigned(i, 0x1_0000_0000), 4, more);
      assert s[1..] == Bytes(Unsigned(i, 0x1_0000_0000), 4) + more;
    } else {
      var n := if i < 0x100 then 1 else if i < 0x10000 then 2 else 4;
      NumberBack(i, n, more);
      assert s[1..] == Bytes(i, n) + more;
    }
  }

  lemma NoBytes()
    ensures Number([]) == 0
  {
  }

  lemma DecodeStrings(s: Text)
    requires s != []
    ensures s[0] % 8 == SHORT_STRING ==> Decode(s) == DecodeStr(s[1..], s[0] / 8)
    ensures s[0] % 8 == LONG_STRING ==> Decode(s) == DecodeLongStr(s[1..], s[0] / 8)
  {
  }

  lemma ShortBack(str: Text, more: Text)
    requires |str| < MAX_COOKIE
    ensures Decode([Tag(SHORT_STRING, |str|)] + (str + more)) == Got(Str(str), more)
  {
  }

  lemma LongBack(n: nat, str: Text, more: Text)
    requires (n == 2 || n == 4) && |str| < Range(n)
    ensures Decode([Tag(LONG_STRING, n)] + (Bytes(|str|, n) + (str + more))) == Got(Str(str), more)
  {
    hide Bytes, Number, Range, Take, Decode;
    var s := [Tag(LONG_STRING, n)] + (Bytes(|str|, n) + (str + more));
    assert s[1..] == Bytes(|str|, n) + (str + more);
    DecodeStrings(s);
    NumberBack(|str|, n, str + more);
    TakeBack(str, more);
  }

  lemma StrBack(str: Text, more: Text)
    requires |str| <= INT_MAX
    ensures Decode(EncodeStr(str) + more) == Got(Str(str), more)
  {
    Ranges();
    hide Bytes, Range, Decode;
    if |str| < MAX_COOKIE {
      ShortBack(str, more);
      Assoc([Tag(SHORT_STRING, |str|)], str, more);
    } else {
      var n := if |str| < 0x10000 then 2 else 4;
      LongBack(n, str, more);
      Assoc([Tag(LONG_STRING, n)] + Bytes(|str|, n), str, more);
      Assoc([Tag(LONG_STRING, n)], Bytes(|str|, n), str + more);
    }
  }

  lemma HeadBack(n: nat, more: Text)
    requires n <= INT_MAX
    ensures var s := TableHead(n) + more;
      s[0] % 8 == TABLE && DecodeSize(s[1..], s[0] / 8) == Got(n, more)
  {
    hide EncodeInt, DecodeInt;
    var s := TableHead(n) + more;
    if n >= MAX_COOKIE - 1 {
      IntBack(n, more);
      assert s[1..] == EncodeInt(n) + more;
    } else {
      assert s[1..] == more;
    }
  }

  // One step of each recursive function, for the proofs that follow.

  lemma EncodeTable(v: Value)
    requires Proper(v) && v.Table?
    ensures Encode(v) == TableHead(|v.arr|) + EncodeAll(v.arr) + EncodeEntries(v.hash) + [Tag(NIL, 0)]
  {
  }

  lemma DecodeTable(s: Text, n: Opt<int>, a: Opt<seq<Value>>, h: Opt<seq<Entry>>)
    requires s != [] && s[0] % 8 == TABLE && n == DecodeSize(s[1..], s[0] / 8) && n.Got? && n.v >= 0
    requires a == DecodeMany(n.rest, n.v) && a.Got? && h == DecodeEntries(a.rest) && h.Got?
    ensures Decode(s) == Got(Table(a.v, h.v), h.rest)
  {
  }

  lemma EncodeFirst(vs: seq<Value>)
    requires vs != [] && forall k :: 0 <= k < |vs| ==> Proper(vs[k])
    ensures EncodeAll(vs) == Encode(vs[0]) + EncodeAll(vs[1..])
  {
  }

  lemma DecodeFirst(s: Text, n: nat, v: Opt<Value>, vs: Opt<seq<Value>>)
    requires n > 0 && v == Decode(s) && v.Got? && vs == DecodeMany(v.rest, n - 1) && vs.Got?
    ensures DecodeMany(s, n) == Got([v.v] + vs.v, vs.rest)
  {
  }

  lemma EncodeFirstEntry(es: seq<Entry>)
    requires es != [] && forall k :: 0 <= k < |es| ==> es[k].key != Nil && Proper(es[k].key) && Proper(es[k].val)
    ensures EncodeEntries(es) == EncodeEntry(es[0]) + EncodeEntries(es[1..])
  {
  }

  lemma DecodeFirstEntry(s: Text, k: Opt<Value>, v: Opt<Value>, es: Opt<seq<Entry>>)
    requires k == Decode(s) && k.Got? && k.v != Nil && v == Decode(k.rest) && v.Got? && es == DecodeEntries(v.rest) && es.Got?
    ensures DecodeEntries(s) == Got([Entry(k.v, v.v)] + es.v, es.rest)
  {
  }

  lemma Nothing(more: Text)
    ensures EncodeAll([]) == [] && EncodeEntries([]) == [] && DecodeMany(more, 0) == Got([], more)
    ensures DecodeEntries([Tag(NIL, 0)] + more) == Got([], more)
  {
  }

  /** Reading back what was written gives the value and leaves what follows. */
  lemma {:induction false} ReadsBack(v: Value, more: Text)
    requires Proper(v)
    ensures Decode(Encode(v) + more) == Got(v, more)
    decreases v, 1
  {
    if v.Table? {
      hide Encode, Decode;
      TableReadsBack(v, more);
    } else {
      ScalarReadsBack(v, more);
    }
  }

  lemma ScalarReadsBack(v: Value, more: Text)
    requires Proper(v) && !v.Table?
    ensures Decode(Encode(v) + more) == Got(v, more)
  {
    var s := Encode(v) + more;
    match v
    case Int(i) => IntBack(i, more);
    case Real(bits) =>
      TakeBack(bits, more);
      assert s[1..] == bits + more;
    case Pointer(bits) =>
      TakeBack(bits, more);
      assert s[1..] == bits + more;
    case Str(str) => StrBack(str, more);
    case _ =>
  }

  lemma {:induction false} TableReadsBack(v: Value, more: Text)
    requires Proper(v) && v.Table?
    ensures Decode(Encode(v) + more) == Got(v, more)
    decreases v, 0
  {
    EncodeTable(v);
    hide TableHead, EncodeAll, EncodeEntries, DecodeMany, DecodeEntries, DecodeSize, Encode, Decode;
    var end := [Tag(NIL, 0)] + more;
    var tail := EncodeEntries(v.hash) + end;
    var body := EncodeAll(v.arr) + tail;
    assert Encode(v) + more == TableHead(|v.arr|) + body;
    HeadBack(|v.arr|, body);
    AllReadBack(v.arr, tail);
    EntriesReadBack(v.hash, more);
    DecodeTable(Encode(v) + more, Got(|v.arr|, body), Got(v.arr, tail), Got(v.hash, more));
  }

  lemma {:induction false} AllReadBack(vs: seq<Value>, more: Text)
    requires forall k :: 0 <= k < |vs| ==> Proper(vs[k])
    ensures DecodeMany(EncodeAll(vs) + more, |vs|) == Got(vs, more)
    decreases vs, 2
  {
    hide Encode, Decode, EncodeAll, DecodeMany, Proper;
    if vs == [] {
      Nothing(more);
      assert [] + more == more;
    } else {
      var rest := EncodeAll(vs[1..]) + more;
      EncodeFirst(vs);
      ReadsBack(vs[0], rest);
      AllReadBack(vs[1..], more);
      assert EncodeAll(vs) + more == Encode(vs[0]) + rest;
      DecodeFirst(EncodeAll(vs) + more, |vs|, Got(vs[0], rest), Got(vs[1..], more));
      assert vs == [vs[0]] + vs[1..];
    }
  }

  lemma {:induction false} EntriesReadBack(es: seq<Entry>, more: Text)
    requires forall k :: 0 <= k < |es| ==> es[k].key != Nil && Proper(es[k].key) && Proper(es[k].val)
    ensures DecodeEntries(EncodeEntries(es) + ([Tag(NIL, 0)] + more)) == Got(es, more)
    decreases es, 2
  {
    hide Encode, Decode, EncodeEntries, DecodeEntries, Proper, EncodeEntry;
    var end := [Tag(NIL, 0)] + more;
    if es == [] {
      Nothing(more);
      assert [] + end == end;
    } else {
      var e, rest := es[0], EncodeEntries(es[1..]) + end;
      EncodeFirstEntry(es);
      EntryReadsBack(e, rest);
      EntriesReadBack(es[1..], more);
      assert EncodeEntries(es) + end == EncodeEntry(e) + rest;
      DecodeFirstEntry(EncodeEntries(es) + end, Got(e.key, Encode(e.val) + rest), Got(e.val, rest), Got(es[1..], more));
      assert es == [e] + es[1..];
    }
  }

  lemma {:induction false} EntryReadsBack(e: Entry, more: Text)
    requires Proper(e.key) && Proper(e.val)
    ensures Decode(EncodeEntry(e) + more) == Got(e.key, Encode(e.val) + more)
    ensures Decode(Encode(e.val) + more) == Got(e.val, more)
    decreases e, 2
  {
    hide Encode, Decode, Proper;
    ReadsBack(e.key, Encode(e.val) + more);
    ReadsBack(e.val, more);
    assert EncodeEntry(e) + more == Encode(e.key) + (Encode(e.val) + more);
  }

  /** luaseri_unpack: values up to the end of the buffer. */
  function DecodeAll(s: Text): Opt<seq<Value>>
    decreases |s|
  {
    if s == [] then Got([], [])
    else
      var v := Decode(s);
      if v == Bad then Bad
      else
        var vs := DecodeAll(v.rest);
        if vs == Bad then Bad else Got([v.v] + vs.v, vs.rest)
  }

  /** A list of values packed one after the other comes back as it was. */
  lemma {:induction false} ListReadsBack(vs: seq<Value>)
    requires forall k :: 0 <= k < |vs| ==> Proper(vs[k])
    ensures DecodeAll(EncodeAll(vs)) == Got(vs, [])
  {
    if vs != [] {
      ReadsBack(vs[0], EncodeAll(vs[1..]));
      ListReadsBack(vs[1..]);
      assert vs == [vs[0]] + vs[1..];
    }
  }
}
