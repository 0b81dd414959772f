/** Replacing a fixed-size field of a BSON document in place (lua-bson.c): makeindex finds where fields
    lie, replace overwrites one of them, and decoding afterwards sees exactly that change. */
module Bson {
  import opened Endian
  import Bits
  import Masks
  import Words

  type Text = seq<Byte>

  const REAL := 1
  const STRING := 2
  const DOCUMENT := 3
  const ARRAY := 4
  const BINARY := 5
  const OBJECTID := 7
  const BOOLEAN := 8
  const DATE := 9
  const NULL := 10
  const REGEX := 11
  const DBPOINTER := 12
  const JSCODE := 13
  const SYMBOL := 14
  const CODEWS := 15
  const INT32 := 16
  const TIMESTAMP := 17
  const INT64 := 18
  const MAXKEY := 127
  const MINKEY := 255

  // ------------------------------------------------------------ the shape of a document

  /** A value is kept as its bytes, but a document or array as its fields. */
  datatype Body = Raw(bytes: Text) | Nested(fields: seq<Field>)

  datatype Field = Field(t: Byte, key: Text, body: Body)

  /** The bytes of a field. */
  ghost function Packed(f: Field): Text { [f.t] + f.key + [0] + PackedBody(f.body) }

  ghost function PackedBody(b: Body): Text {
    match b
    case Raw(bytes) => bytes
    case Nested(fields) => Document(fields)
  }

  ghost function PackedAll(fs: seq<Field>): Text
    decreases fs, 0
  {
    if fs == [] then [] else Packed(fs[0]) + PackedAll(fs[1..])
  }

  /** A document: its length, its fields and a zero byte. */
  ghost function Document(fs: seq<Field>): Text
    decreases fs, 1
  {
    Bytes(|PackedAll(fs)| + 5, 4) + PackedAll(fs) + [0]
  }

  /** The place of the first zero byte, |s| when there is none. */
  function Zero(s: Text): (n: nat)
    ensures n <= |s| && (n < |s| ==> s[n] == 0) && forall k :: 0 <= k < n ==> s[k] != 0
  {
    if s == [] || s[0] == 0 then 0 else 1 + Zero(s[1..])
  }

  datatype Length = Size(n: nat) | Malformed

  function Within(n: nat, s: Text): Length { if n <= |s| then Size(n) else Malformed }

  /** read_int32, for sizes: negative ones are refused. */
  datatype Count = Count(n: nat) | NoCount

  function ReadCount(s: Text): Count {
    if |s| < 4 || Number(s[..4]) >= 0x8000_0000 then NoCount else Count(Number(s[..4]))
  }

  /** A value that starts with a size, at least `least`, and is `extra` longer than it. */
  function Counted(s: Text, least: nat, extra: nat): Length {
    match ReadCount(s)
    case NoCount => Malformed
    case Count(n) => if n < least then Malformed else Within(n + extra, s)
  }

  /** Two strings that end in a zero byte. */
  function TwoStrings(s: Text): Length {
    var a := Zero(s);
    if a == |s| then Malformed
    else
      var b := Zero(s[a + 1..]);
      Within(a + 1 + b + 1, s)
  }

  /** The switch of unpack_dict, for values other than documents and arrays: how many bytes it reads. */
  function UnpackSize(t: nat, s: Text): Length {
    if t == REAL then Within(8, s)
    else if t == BOOLEAN then Within(1, s)
    else if t == STRING then Counted(s, 1, 4)
    else if t == BINARY then Counted(s, 0, 5)
    else if t == OBJECTID then Within(12, s)
    else if t == DATE then Within(8, s)
    else if t == MINKEY || t == MAXKEY || t == NULL then Size(0)
    else if t == REGEX then TwoStrings(s)
    else if t == INT32 then Within(4, s)
    else if t == TIMESTAMP then Within(8, s)
    else if t == INT64 then Within(8, s)
    else if t == DBPOINTER then Counted(s, 0, 16)
    else if t == JSCODE || t == SYMBOL then Counted(s, 0, 4)
    else if t == CODEWS then Counted(s, 4, 0)
    else Malformed
  }

  /** The fields lmakeindex enters, by their size. */
  function FixedSize(t: nat): nat {
    if t == INT64 || t == TIMESTAMP || t == DATE || t == REAL then 8
    else if t == BOOLEAN then 1
    else if t == OBJECTID then 12
    else if t == INT32 then 4
    else 0
  }

  /** The switch of lmakeindex: how many bytes it skips. */
  function IndexSize(t: nat, s: Text): Length {
    if FixedSize(t) > 0 then Within(FixedSize(t), s)
    else if t == JSCODE || t == SYMBOL || t == STRING then Counted(s, 0, 4)
    else if t == CODEWS || t == ARRAY || t == DOCUMENT then Counted(s, 4, 0)
    else if t == BINARY then Counted(s, 0, 5)
    else if t == MINKEY || t == MAXKEY || t == NULL then Size(0)
    else if t == REGEX then TwoStrings(s)
    else if t == DBPOINTER then Counted(s, 0, 16)
    else Malformed
  }

  predicate IsNested(t: nat) { t == DOCUMENT || t == ARRAY }

  ghost predicate NoZero(s: Text) { forall k :: 0 <= k < |s| ==> s[k] != 0 }

  /** A field that reads back as itself, whatever follows. */
  ghost predicate Wellformed(f: Field) {
    && NoZero(f.key)
    && match f.body
       case Raw(bytes) => !IsNested(f.t) && UnpackSize(f.t, bytes) == Size(|bytes|)
       case Nested(fields) => IsNested(f.t) && WellformedDocument(fields)
  }

  ghost predicate WellformedDocument(fs: seq<Field>)
    decreases fs, 1
  {
    |Document(fs)| < 0x8000_0000 && forall k :: 0 <= k < |fs| ==> Wellformed(fs[k])
  }

  /** A document small enough for the index, with distinct keys. */
  ghost predicate IsDocument(doc: Text, fs: seq<Field>) {
    && doc == Document(fs) && WellformedDocument(fs) && |doc| < 0x400_0000
    && forall i, j :: 0 <= i < j < |fs| ==> fs[i].key != fs[j].key
  }

  // ------------------------------------------------------------ what the readers see

  lemma ZeroIn(a: Text, b: Text)
    requires Zero(a) < |a|
    ensures Zero(a + b) == Zero(a)
  {
    var m, n := Zero(a), Zero(a + b);
    assert (a + b)[m] == a[m] == 0;
    assert forall k :: 0 <= k < m ==> (a + b)[k] == a[k];
  }

  lemma StringsAreLocal(s: Text, more: Text)
    requires TwoStrings(s) == Size(|s|)
    ensures TwoStrings(s + more) == Size(|s|)
  {
    var a := Zero(s);
    var b := Zero(s[a + 1..]);
    ZeroIn(s, more);
    ZeroIn(s[a + 1..], more);
    assert (s + more)[a + 1..] == s[a + 1..] + more;
  }

  lemma CountIsLocal(s: Text, more: Text)
    requires |s| >= 4
    ensures ReadCount(s + more) == ReadCount(s)
  {
    assert (s + more)[..4] == s[..4];
  }

  lemma CountedIsLocal(s: Text, more: Text, least: nat, extra: nat)
    requires Counted(s, least, extra) == Size(|s|)
    ensures Counted(s + more, least, extra) == Size(|s|)
  {
    hide ReadCount;
    if |s| >= 4 {
      CountIsLocal(s, more);
    } else {
      NoCountIn(s);
    }
  }

  lemma NoCountIn(s: Text)
    requires |s| < 4
    ensures ReadCount(s) == NoCount
  {
  }

  /** What follows a value has no influence on its size. */
  lemma SizeIsLocal(t: nat, s: Text, more: Text)
    requires UnpackSize(t, s) == Size(|s|)
    ensures UnpackSize(t, s + more) == Size(|s|)
  {
    hide Counted, TwoStrings;
    if t == REGEX {
      StringsAreLocal(s, more);
    } else if t == STRING {
      CountedIsLocal(s, more, 1, 4);
    } else if t == BINARY {
      CountedIsLocal(s, more, 0, 5);
    } else if t == DBPOINTER {
      CountedIsLocal(s, more, 0, 16);
    } else if t == JSCODE || t == SYMBOL {
      CountedIsLocal(s, more, 0, 4);
    } else if t == CODEWS {
      CountedIsLocal(s, more, 4, 0);
    }
  }

  lemma CountedLess(s: Text, least: nat, extra: nat)
    requires Counted(s, least, extra) != Malformed
    ensures Counted(s, 0, extra) == Counted(s, least, extra)
  {
  }

  /** On values that unpack_dict accepts the two switches agree. */
  lemma SwitchesAgree(t: nat, s: Text)
    requires UnpackSize(t, s) != Malformed
    ensures IndexSize(t, s) == UnpackSize(t, s)
  {
    hide Counted, TwoStrings;
    if t == STRING {
      CountedLess(s, 1, 4);
    }
  }

  /** They do not agree otherwise: an empty string, without even its zero byte, is skipped but not read. */
  lemma SwitchesDiffer()
    ensures UnpackSize(STRING, [0, 0, 0, 0]) == Malformed && IndexSize(STRING, [0, 0, 0, 0]) == Size(4)
  {
    var s: Text := [0, 0, 0, 0];
    assert s[..4] == s;
    assert Number(s) == 0 by {
      assert s[1..] == [0, 0, 0] && s[1..][1..] == [0, 0] && s[1..][1..][1..] == [0] && s[1..][1..][1..][1..] == [];
    }
  }

  lemma DocumentCount(fs: seq<Field>, more: Text)
    requires |Document(fs)| < 0x8000_0000
    ensures ReadCount(Document(fs) + more) == Count(|Document(fs)|) && |Document(fs)| == |PackedAll(fs)| + 5
  {
    hide PackedAll, Bytes, Number, Range;
    var n := |PackedAll(fs)| + 5;
    assert (Document(fs) + more)[..4] == Bytes(n, 4);
    Ranges();
    NumberOfBytes(n, 4);
  }

  /** lmakeindex skips exactly the value of a field. */
  lemma Skips(f: Field, more: Text)
    requires Wellformed(f)
    ensures IndexSize(f.t, PackedBody(f.body) + more) == Size(|PackedBody(f.body)|)
  {
    hide UnpackSize, Document, ReadCount;
    match f.body
    case Raw(bytes) =>
      SizeIsLocal(f.t, bytes, more);
      SwitchesAgree(f.t, bytes + more);
    case Nested(fields) => DocumentCount(fields, more);
  }

  lemma KeyEnds(key: Text, more: Text)
    requires NoZero(key)
    ensures Zero(key + [0] + more) == |key|
  {
    var s := key + [0] + more;
    assert s[|key|] == 0 && forall k :: 0 <= k < |key| ==> s[k] == key[k];
  }

  /** The type and the key at the front of a field. */
  lemma FrontOf(f: Field, more: Text)
    requires NoZero(f.key)
    ensures var s := Packed(f) + more;
      && s != [] && s[0] == f.t && Zero(s[1..]) == |f.key| < |s[1..]| && s[1..1 + |f.key|] == f.key
      && s[2 + |f.key|..] == PackedBody(f.body) + more
  {
    hide PackedBody, Zero;
    var s, body := Packed(f) + more, PackedBody(f.body);
    KeyEnds(f.key, body + more);
    assert s[1..] == f.key + [0] + (body + more);
  }

  // ------------------------------------------------------------ decoding

  datatype Opt<T> = Got(v: T, rest: Text) | Bad

  /** A value of type t at the front of s. */
  ghost function ReadBody(t: Byte, s: Text): (r: Opt<Body>)
    ensures r.Got? ==> |r.rest| <= |s|
    decreases |s|, 1
  {
    if IsNested(t) then
      var d := ReadDocument(s);
      if d == Bad then Bad else Got(Nested(d.v), d.rest)
    else
      match UnpackSize(t, s)
      case Malformed => Bad
      case Size(n) => if n <= |s| then Got(Raw(s[..n]), s[n..]) else Bad
  }

  ghost function ReadField(s: Text): (r: Opt<Field>)
    ensures r.Got? ==> |r.rest| < |s|
    decreases |s|, 2
  {
    if s == [] || Zero(s[1..]) == |s[1..]| then Bad
    else
      var n := Zero(s[1..]);
      var b := ReadBody(s[0], s[2 + n..]);
      if b == Bad then Bad else Got(Field(s[0], s[1..1 + n], b.v), b.rest)
  }

  /** Fields up to the end of s. */
  ghost function ReadFields(s: Text): Opt<seq<Field>>
    decreases |s|, 3
  {
    if s == [] then Got([], [])
    else
      var f := ReadField(s);
      if f == Bad then Bad
      else
        var fs := ReadFields(f.rest);
        if fs == Bad then Bad else Got([f.v] + fs.v, fs.rest)
  }

  /** unpack_dict. */
  ghost function ReadDocument(s: Text): (r: Opt<seq<Field>>)
    ensures r.Got? ==> |r.rest| <= |s|
    decreases |s|, 0
  {
    match ReadCount(s)
    case NoCount => Bad
    case Count(n) =>
      if n < 5 || n > |s| || s[n - 1] != 0 then Bad
      else
        var fs := ReadFields(s[4..n - 1]);
        if fs == Bad then Bad else Got(fs.v, s[n..])
  }

  // Steps of the readers, for the proofs that follow.

  lemma RawStep(t: Byte, s: Text, more: Text)
    requires !IsNested(t) && UnpackSize(t, s) == Size(|s|)
    ensures ReadBody(t, s + more) == Got(Raw(s), more)
  {
    hide UnpackSize;
    SizeIsLocal(t, s, more);
    assert (s + more)[..|s|] == s && (s + more)[|s|..] == more;
  }

  lemma NestedStep(t: Byte, s: Text)
    requires IsNested(t)
    ensures ReadBody(t, s) == if ReadDocument(s) == Bad then Bad else Got(Nested(ReadDocument(s).v), ReadDocument(s).rest)
  {
  }

  lemma FieldStep(s: Text, n: nat)
    requires s != [] && n == Zero(s[1..]) < |s[1..]|
    ensures ReadField(s) ==
      var b := ReadBody(s[0], s[2 + n..]);
      if b == Bad then Bad else Got(Field(s[0], s[1..1 + n], b.v), b.rest)
  {
    hide ReadBody, Zero;
  }

  lemma FieldsStep(s: Text, f: Opt<Field>)
    requires s != [] && f == ReadField(s) && f.Got?
    ensures ReadFields(s) == if ReadFields(f.rest) == Bad then Bad else Got([f.v] + ReadFields(f.rest).v, ReadFields(f.rest).rest)
  {
  }

  lemma {:induction false} ReadsField(f: Field, more: Text)
    requires Wellformed(f)
    ensures ReadField(Packed(f) + more) == Got(f, more)
    decreases f, 0
  {
    var s, n := Packed(f) + more, |f.key|;
    FrontOf(f, more);
    hide Packed, ReadField, ReadBody, ReadDocument, Document, UnpackSize, Zero;
    FieldStep(s, n);
    match f.body
    case Raw(bytes) => RawStep(f.t, bytes, more);
    case Nested(fields) =>
      ReadsDocument(fields, more);
      NestedStep(f.t, Document(fields) + more);
  }

  lemma {:induction false} ReadsFields(fs: seq<Field>)
    requires forall k :: 0 <= k < |fs| ==> Wellformed(fs[k])
    ensures ReadFields(PackedAll(fs)) == Got(fs, [])
    decreases fs, 0
  {
    if fs != [] {
      hide ReadFields, ReadField, Packed, Wellformed;
      var s := PackedAll(fs);
      PackedNotEmpty(fs[0]);
      ReadsField(fs[0], PackedAll(fs[1..]));
      ReadsFields(fs[1..]);
      FieldsStep(s, Got(fs[0], PackedAll(fs[1..])));
      assert fs == [fs[0]] + fs[1..];
    }
  }

  lemma PackedNotEmpty(f: Field)
    ensures |Packed(f)| >= 2 + |f.key|
  {
  }

  /** Decoding a document gives its fields, and leaves what follows. */
  lemma {:induction false} ReadsDocument(fs: seq<Field>, more: Text)
    requires WellformedDocument(fs)
    ensures ReadDocument(Document(fs) + more) == Got(fs, more)
    decreases fs, 1
  {
    hide ReadCount, ReadFields, PackedAll, Wellformed;
    var s, n := Document(fs) + more, |Document(fs)|;
    DocumentCount(fs, more);
    ReadsFields(fs);
    assert s[4..n - 1] == PackedAll(fs) && s[n..] == more && s[n - 1] == 0;
  }

  lemma CountedPart(s: Text, least: nat, extra: nat)
    requires Counted(s, least, extra) != Malformed && least + extra >= 4
    ensures var n := Counted(s, least, extra).n; n <= |s| && Counted(s[..n], least, extra) == Size(n)
  {
    var n := Counted(s, least, extra).n;
    assert s[..n][..4] == s[..4];
  }

  lemma StringsPart(s: Text)
    requires TwoStrings(s) != Malformed
    ensures var n := TwoStrings(s).n; n <= |s| && TwoStrings(s[..n]) == Size(n)
  {
    var a := Zero(s);
    var b := Zero(s[a + 1..]);
    var n := a + 1 + b + 1;
    ZeroOfPart(s, n);
    ZeroOfPart(s[a + 1..], b + 1);
    assert s[..n][a + 1..] == s[a + 1..][..b + 1];
  }

  lemma ZeroOfPart(s: Text, n: nat)
    requires Zero(s) < n <= |s|
    ensures Zero(s[..n]) == Zero(s)
  {
    var m := Zero(s);
    assert s[..n][m] == 0 && forall k :: 0 <= k < m ==> s[..n][k] == s[k];
  }

  lemma SizeOfPart(t: nat, s: Text)
    requires UnpackSize(t, s) != Malformed
    ensures var n := UnpackSize(t, s).n; n <= |s| && UnpackSize(t, s[..n]) == Size(n)
  {
    hide Counted, TwoStrings;
    if t == REGEX {
      StringsPart(s);
    } else if t == STRING {
      CountedPart(s, 1, 4);
    } else if t == BINARY {
      CountedPart(s, 0, 5);
    } else if t == DBPOINTER {
      CountedPart(s, 0, 16);
    } else if t == JSCODE || t == SYMBOL {
      CountedPart(s, 0, 4);
    } else if t == CODEWS {
      CountedPart(s, 4, 0);
    }
  }

  lemma {:induction false} BodyWas(t: Byte, s: Text)
    requires ReadBody(t, s).Got?
    ensures var r := ReadBody(t, s); s == PackedBody(r.v) + r.rest && Wellformed(Field(t, [], r.v))
    decreases |s|, 1
  {
    if IsNested(t) {
      DocumentWas(s);
    } else {
      SizeOfPart(t, s);
      hide UnpackSize;
    }
  }

  lemma {:induction false} FieldWas(s: Text)
    requires ReadField(s).Got?
    ensures var r := ReadField(s); s == Packed(r.v) + r.rest && Wellformed(r.v)
    decreases |s|, 2
  {
    hide ReadBody, UnpackSize;
    var n := Zero(s[1..]);
    BodyWas(s[0], s[2 + n..]);
    assert s == [s[0]] + s[1..1 + n] + [0] + s[2 + n..];
    assert Wellformed(ReadField(s).v) by {
      assert NoZero(s[1..1 + n]);
    }
  }

  lemma {:induction false} FieldsWere(s: Text)
    requires ReadFields(s).Got?
    ensures var fs := ReadFields(s).v; s == PackedAll(fs) && forall k :: 0 <= k < |fs| ==> Wellformed(fs[k])
    decreases |s|, 3
  {
    if s != [] {
      hide ReadField, Packed, Wellformed;
      var f := ReadField(s);
      FieldWas(s);
      FieldsWere(f.rest);
      var fs := ReadFields(s).v;
      assert fs[0] == f.v && fs[1..] == ReadFields(f.rest).v;
    }
  }

  /** What decodes is a document of well-formed fields, followed by what is left. */
  lemma {:induction false} DocumentWas(s: Text)
    requires ReadDocument(s).Got?
    ensures var r := ReadDocument(s); s == Document(r.v) + r.rest && WellformedDocument(r.v)
    decreases |s|, 0
  {
    hide ReadFields, PackedAll, Wellformed, Bytes, Number;
    var n := ReadCount(s).n;
    FieldsWere(s[4..n - 1]);
    BytesOfNumber(s[..4]);
    var fs := ReadDocument(s).v;
    assert |PackedAll(fs)| + 5 == n;
    assert s == s[..4] + s[4..n - 1] + [0] + s[n..];
  }

  /** What is read, after the fields fs. */
  ghost function Prepend(fs: seq<Field>, r: Opt<seq<Field>>): Opt<seq<Field>> {
    if r == Bad then Bad else Got(fs + r.v, r.rest)
  }

  lemma PrependStep(fs: seq<Field>, s: Text)
    requires s != []
    ensures var f := ReadField(s);
      Prepend(fs, ReadFields(s)) == if f == Bad then Bad else Prepend(fs + [f.v], ReadFields(f.rest))
  {
    hide ReadField;
    var f := ReadField(s);
    if f.Got? && ReadFields(f.rest).Got? {
      assert fs + ([f.v] + ReadFields(f.rest).v) == (fs + [f.v]) + ReadFields(f.rest).v;
    }
  }

  lemma PrependNothing(fs: seq<Field>)
    ensures Prepend(fs, ReadFields([])) == Got(fs, []) && forall r :: Prepend([], r) == r
  {
    assert fs + [] == fs;
    assert forall r: Opt<seq<Field>> :: r.Got? ==> [] + r.v == r.v;
  }

  /** One round of the loop of unpack_dict: type, key and value. */
  method UnpackField(s: Text) returns (r: Opt<Field>)
    requires s != []
    ensures r == ReadField(s)
    decreases |s|, 0
  {
    hide ReadBody, UnpackSize, Zero;
    var t, n := s[0], Zero(s[1..]);
    if n == |s[1..]| {
      return Bad;
    }
    FieldStep(s, n);
    var rest := s[2 + n..];
    BodyStep(t, rest);
    if IsNested(t) {
      var d := UnpackDict(rest);
      r := if d == Bad then Bad else Got(Field(t, s[1..1 + n], Nested(d.v)), d.rest);
    } else {
      var size := UnpackSize(t, rest);
      r := if size == Malformed then Bad else Got(Field(t, s[1..1 + n], Raw(rest[..size.n])), rest[size.n..]);
    }
  }

  lemma BodyStep(t: Byte, s: Text)
    ensures IsNested(t) ==> ReadBody(t, s) == if ReadDocument(s) == Bad then Bad else Got(Nested(ReadDocument(s).v), ReadDocument(s).rest)
    ensures !IsNested(t) ==>
      if UnpackSize(t, s) == Malformed then ReadBody(t, s) == Bad
      else UnpackSize(t, s).n <= |s| && ReadBody(t, s) == Got(Raw(s[..UnpackSize(t, s).n]), s[UnpackSize(t, s).n..])
  {
    if !IsNested(t) && UnpackSize(t, s) != Malformed {
      SizeOfPart(t, s);
    }
    hide UnpackSize, ReadDocument;
  }

  /** unpack_dict. */
  method UnpackDict(s: Text) returns (r: Opt<seq<Field>>)
    ensures r == ReadDocument(s)
    decreases |s|, 1
  {
    hide ReadFields, ReadField, Prepend, Number;
    var c := ReadCount(s);
    if c == NoCount {
      return Bad;
    }
    var n := c.n;
    if n < 5 || n > |s| || s[n - 1] != 0 {
      return Bad;
    }
    var t, fields := s[4..n - 1], [];
    PrependNothing([]);
    while t != []
      invariant |t| < |s| && ReadFields(s[4..n - 1]) == Prepend(fields, ReadFields(t))
      decreases |t|
    {
      PrependStep(fields, t);
      var f := UnpackField(t);
      if f == Bad {
        return Bad;
      }
      fields, t := fields + [f.v], f.rest;
    }
    PrependNothing(fields);
    r := Got(fields, s[n..]);
  }

  /** ldecode: succeeds exactly on documents whose fields, at every depth, are well-formed. */
  method Decode(doc: Text) returns (ok: bool, fields: seq<Field>)
    ensures ok <==> exists fs :: WellformedDocument(fs) && doc == Document(fs)
    ensures forall fs :: WellformedDocument(fs) && doc == Document(fs) ==> fields == fs
    ensures ok ==> doc == Document(fields) && WellformedDocument(fields)
  {
    var r := UnpackDict(doc);
    ok := r.Got? && r.rest == [];
    fields := if ok then r.v else [];
    hide ReadDocument, Document, WellformedDocument;
    if ok {
      DocumentWas(doc);
      assert Document(r.v) + [] == Document(r.v);
    }
    forall fs | WellformedDocument(fs) && doc == Document(fs)
      ensures ok && fields == fs
    {
      ReadsDocument(fs, []);
      assert doc + [] == doc;
    }
  }

  // ------------------------------------------------------------ where fields lie

  lemma {:induction false} SplitAt(fs: seq<Field>, j: nat)
    requires j <= |fs|
    ensures PackedAll(fs) == PackedAll(fs[..j]) + PackedAll(fs[j..])
  {
    hide Packed;
    if j == 0 {
      assert fs[..0] == [] && fs[0..] == fs;
    } else {
      SplitAt(fs[1..], j - 1);
      assert fs[..j][1..] == fs[1..][..j - 1] && fs[j..] == fs[1..][j - 1..] && fs[..j][0] == fs[0];
      assert PackedAll(fs[..j]) == Packed(fs[0]) + PackedAll(fs[1..][..j - 1]);
    }
  }

  /** Where field j begins, counted from the start of the document. */
  ghost function At(fs: seq<Field>, j: nat): nat
    requires j <= |fs|
  {
    4 + |PackedAll(fs[..j])|
  }

  /** Where its value begins. */
  ghost function Start(fs: seq<Field>, j: nat): nat
    requires j < |fs|
  {
    At(fs, j) + 2 + |fs[j].key|
  }

  lemma NextAt(fs: seq<Field>, j: nat)
    requires j < |fs|
    ensures PackedAll(fs[j..]) == Packed(fs[j]) + PackedAll(fs[j + 1..])
    ensures At(fs, j + 1) == Start(fs, j) + |PackedBody(fs[j].body)|
  {
    assert fs[j..][1..] == fs[j + 1..];
    SplitAt(fs[..j + 1], j);
    assert fs[..j + 1][..j] == fs[..j] && fs[..j + 1][j..] == [fs[j]];
    assert PackedAll([fs[j]]) == Packed(fs[j]) + PackedAll([]);
  }

  /** What lies between field j of a document and its final zero byte. */
  lemma Here(fs: seq<Field>, j: nat)
    requires j <= |fs|
    ensures var doc := Document(fs);
      At(fs, j) + |PackedAll(fs[j..])| + 1 == |doc| && doc[At(fs, j)..|doc| - 1] == PackedAll(fs[j..])
  {
    hide PackedAll;
    SplitAt(fs, j);
    var a, b := PackedAll(fs[..j]), PackedAll(fs[j..]);
    assert Document(fs) == Bytes(|PackedAll(fs)| + 5, 4) + a + b + [0];
  }

  /** What lmakeindex meets at the position of field j. */
  lemma NextField(doc: Text, fs: seq<Field>, j: nat)
    requires IsDocument(doc, fs) && j <= |fs| && At(fs, j) < |doc| - 1
    ensures j < |fs| && Wellformed(fs[j]) && doc[At(fs, j)..|doc| - 1] == Packed(fs[j]) + PackedAll(fs[j + 1..])
    ensures At(fs, j + 1) == At(fs, j) + 2 + |fs[j].key| + |PackedBody(fs[j].body)|
  {
    hide PackedAll, Document, Packed;
    Here(fs, j);
    if j == |fs| {
      assert fs[j..] == [];
      NoFields();
    } else {
      NextAt(fs, j);
    }
  }

  lemma NoFields()
    ensures PackedAll([]) == []
  {
  }

  lemma AllRead(doc: Text, fs: seq<Field>, j: nat)
    requires IsDocument(doc, fs) && j <= |fs| && At(fs, j) >= |doc| - 1
    ensures j == |fs|
  {
    hide Document;
    Here(fs, j);
    if j < |fs| {
      NextAt(fs, j);
    }
  }

  lemma LengthOf(doc: Text, fs: seq<Field>)
    requires IsDocument(doc, fs)
    ensures |doc| >= 5 && Number(doc[..4]) == |doc| && At(fs, 0) == 4
  {
    hide PackedAll, Number, Bytes;
    DocumentCount(fs, []);
    assert doc + [] == doc;
    NoFields();
  }

  // ------------------------------------------------------------ the index

  type Word = Words.Word

  /** The packed id, an int: `bt | offset << 5`. */
  function Id(t: nat, offset: nat): Word { Masks.Join(Bits.WordOf(t), Bits.WordOf(offset)) }

  function TypeOf(id: Word): nat { Bits.NumberOf(Masks.And(id, 31)) }

  function OffsetOf(id: Word): nat { Bits.NumberOf(Masks.Right5(id)) }

  /** Type and offset come back from the id, and it is not negative. */
  lemma IdUnpacks(t: nat, offset: nat)
    requires t < 32 && offset < 0x400_0000
    ensures TypeOf(Id(t, offset)) == t && OffsetOf(Id(t, offset)) == offset
    ensures Masks.And(Id(t, offset), 0x8000_0000) == 0
  {
    hide Bits.WordOf, Bits.NumberOf, Masks.And, Masks.Join, Masks.Right5;
    Bits.Below32(t);
    Bits.Below26Bits(offset);
    Masks.Parts(Bits.WordOf(t), Bits.WordOf(offset));
    Bits.NumberBack(t);
    Bits.NumberBack(offset);
  }

  /** The index of the first j fields: exactly the fixed-size ones, each with its type and the offset of
      its value. */
  ghost predicate Indexes(index: map<Text, Word>, fs: seq<Field>, j: nat)
    requires j <= |fs|
  {
    && (forall i :: 0 <= i < j && FixedSize(fs[i].t) > 0 ==> fs[i].key in index && index[fs[i].key] == Id(fs[i].t, Start(fs, i)))
    && (forall key :: key in index ==> exists i :: 0 <= i < j && FixedSize(fs[i].t) > 0 && fs[i].key == key)
  }

  lemma IndexesMore(index: map<Text, Word>, fs: seq<Field>, j: nat)
    requires j < |fs| && Indexes(index, fs, j) && forall i :: 0 <= i < j ==> fs[i].key != fs[j].key
    ensures FixedSize(fs[j].t) > 0 ==> Indexes(index[fs[j].key := Id(fs[j].t, Start(fs, j))], fs, j + 1)
    ensures FixedSize(fs[j].t) == 0 ==> Indexes(index, fs, j + 1)
  {
    hide Id, Start, FixedSize;
  }

  /** One round of the loop of lmakeindex: type and key, and how many bytes the value has. */
  method SkipField(s: Text, ghost f: Field, ghost more: Text) returns (ok: bool, t: Byte, key: Text, size: nat)
    ensures ok ==> 2 + |key| + size <= |s|
    ensures Wellformed(f) && s == Packed(f) + more ==> ok && t == f.t && key == f.key && size == |PackedBody(f.body)|
  {
    hide IndexSize, Packed, Zero, Wellformed, PackedBody;
    if Wellformed(f) && s == Packed(f) + more {
      KeyOk(f);
      FrontOf(f, more);
      Skips(f, more);
    }
    ok, t, key, size := false, 0, [], 0;
    if s == [] {
      return;
    }
    var n := Zero(s[1..]);
    if n == |s[1..]| {
      return;
    }
    var z := IndexSize(s[0], s[2 + n..]);
    IndexSizeFits(s[0], s[2 + n..]);
    if z == Malformed {
      return;
    }
    ok, t, key, size := true, s[0], s[1..1 + n], z.n;
  }

  lemma KeyOk(f: Field)
    requires Wellformed(f)
    ensures NoZero(f.key)
  {
  }

  lemma IndexSizeFits(t: nat, s: Text)
    ensures IndexSize(t, s).Size? ==> IndexSize(t, s).n <= |s|
  {
  }

  /** lmakeindex. */
  method MakeIndex(doc: Text, ghost fs: seq<Field>) returns (ok: bool, index: map<Text, Word>)
    ensures IsDocument(doc, fs) ==> ok && Indexes(index, fs, |fs|)
  {
    ok, index := false, map[];
    if |doc| < 5 || Number(doc[..4]) != |doc| {
      if IsDocument(doc, fs) {
        LengthOf(doc, fs);
      }
      return;
    }
    NoIndex(fs);
    if IsDocument(doc, fs) {
      LengthOf(doc, fs);
    }
    hide *;
    var pos := 4;
    ghost var j := 0;
    while pos < |doc| - 1
      invariant 4 <= pos <= |doc| - 1
      invariant IsDocument(doc, fs) ==> j <= |fs| && pos == At(fs, j) && Indexes(index, fs, j)
      decreases |doc| - pos
    {
      ghost var f, more := Field(0, [], Raw([])), [];
      if IsDocument(doc, fs) {
        NextField(doc, fs, j);
        KeysDiffer(doc, fs, j);
        IndexesMore(index, fs, j);
        StartIs(fs, j);
        f, more := fs[j], PackedAll(fs[j + 1..]);
      }
      var read, t, key, size := SkipField(doc[pos..|doc| - 1], f, more);
      if !read {
        return;
      }
      if FixedSize(t) > 0 {
        index := index[key := Id(t, pos + 2 + |key|)];
      }
      pos, j := pos + 2 + |key| + size, j + 1;
    }
    if IsDocument(doc, fs) {
      AllRead(doc, fs, j);
    }
    ok := true;
  }

  lemma KeysDiffer(doc: Text, fs: seq<Field>, j: nat)
    requires IsDocument(doc, fs) && j < |fs|
    ensures forall i :: 0 <= i < j ==> fs[i].key != fs[j].key
  {
  }

  lemma StartIs(fs: seq<Field>, j: nat)
    requires j < |fs|
    ensures Start(fs, j) == At(fs, j) + 2 + |fs[j].key|
  {
  }

  lemma NoIndex(fs: seq<Field>)
    ensures Indexes(map[], fs, 0)
  {
  }

  // ------------------------------------------------------------ values

  /** The Lua values that replace accepts; a double is its eight bytes. */
  datatype Value = Real(bits: Text) | Bool(b: bool) | ObjectId(bytes: Text) | Date(seconds: nat) | Timestamp(bytes: Text) | Integer(i: int)

  ghost predicate Proper(v: Value) {
    match v
    case Real(bits) => |bits| == 8
    case Bool(_) => true
    case ObjectId(bytes) => |bytes| == 12
    case Date(seconds) => seconds < 0x1_0000_0000
    case Timestamp(bytes) => |bytes| == 8
    case Integer(i) => -0x8000_0000_0000_0000 <= i < 0x8000_0000_0000_0000
  }

  datatype Written = Wrote(body: Text) | Mismatch

  /** What lreplace writes for a value, by the type found in the index. */
  function Write(t: nat, v: Value): (w: Written)
    requires v.Real? ==> |v.bits| == 8
    requires v.ObjectId? ==> |v.bytes| == 12
    requires v.Timestamp? ==> |v.bytes| == 8
    ensures w.Wrote? ==> |w.body| == FixedSize(t) > 0
  {
    if t == REAL && v.Real? then Wrote(v.bits)
    else if t == BOOLEAN then Wrote([if v.Bool? && !v.b then 0 else 1])
    else if t == OBJECTID && v.ObjectId? then Wrote(v.bytes)
    else if t == DATE && v.Date? then Wrote(Bytes(v.seconds * 1000, 8))
    else if t == TIMESTAMP && v.Timestamp? then Wrote(v.bytes)
    else if t == INT32 && v.Integer? then Wrote(Bytes(v.i % 0x1_0000_0000, 4))
    else if t == INT64 && v.Integer? then Wrote(Bytes(v.i % 0x1_0000_0000_0000_0000, 8))
    else Mismatch
  }

  /** C division truncates towards zero. */
  function Truncated(x: int, y: nat): int
    requires y > 0
  {
    if x >= 0 then x / y else -(-x / y)
  }

  /** How unpack_dict reads the value back. */
  function ReadBack(t: nat, body: Text): Value
    requires FixedSize(t) > 0 && |body| == FixedSize(t)
  {
    if t == REAL then Real(body)
    else if t == BOOLEAN then Bool(body[0] != 0)
    else if t == OBJECTID then ObjectId(body)
    else if t == DATE then Date(Truncated(Signed(Number(body), 0x1_0000_0000_0000_0000), 1000) % 0x1_0000_0000)
    else if t == TIMESTAMP then Timestamp(body)
    else if t == INT32 then Integer(Signed(Number(body), 0x1_0000_0000))
    else Integer(Signed(Number(body), 0x1_0000_0000_0000_0000))
  }

  /** A value written is read back as it was, but for integers that do not fit an INT32 and for values
      other than booleans given for a boolean. */
  lemma ReadsBack(t: nat, v: Value)
    requires Proper(v) && Write(t, v).Wrote?
    ensures ReadBack(t, Write(t, v).body) == v <==>
      (t == INT32 ==> -0x8000_0000 <= v.i < 0x8000_0000) && (t == BOOLEAN ==> v.Bool?)
  {
    hide Bytes, Number;
    if t == DATE {
      Ranges();
      NumberOfBytes(v.seconds * 1000, 8);
    } else if t == INT32 {
      Ranges();
      NumberOfBytes(v.i % 0x1_0000_0000, 4);
      Wraps(v.i, 0x1_0000_0000);
    } else if t == INT64 {
      Ranges();
      NumberOfBytes(v.i % 0x1_0000_0000_0000_0000, 8);
      Wraps(v.i, 0x1_0000_0000_0000_0000);
    }
  }

  /** The bytes written are those of the BSON format: a date in milliseconds, integers in two's complement,
      the least significant byte first. */
  lemma AsBsonSays(t: nat, v: Value)
    requires Proper(v) && Write(t, v).Wrote?
    ensures var b := Write(t, v).body;
      && (t == REAL ==> b == v.bits)
      && (t == BOOLEAN ==> b == [if v == Bool(false) then 0 else 1])
      && (t == OBJECTID ==> b == v.bytes)
      && (t == DATE ==> |b| == 8 && Spells(b, 1000 * v.seconds))
      && (t == TIMESTAMP ==> b == v.bytes)
      && (t == INT32 && -0x8000_0000 <= v.i < 0x8000_0000 ==> |b| == 4 && Spells(b, if v.i < 0 then v.i + 0x1_0000_0000 else v.i))
      && (t == INT64 ==> |b| == 8 && Spells(b, if v.i < 0 then v.i + 0x1_0000_0000_0000_0000 else v.i))
  {
    hide Bytes, Spells, Range;
    Ranges();
    if t == DATE {
      BytesSpell(v.seconds * 1000, 8);
    } else if t == INT32 {
      BytesSpell(v.i % 0x1_0000_0000, 4);
    } else if t == INT64 {
      BytesSpell(v.i % 0x1_0000_0000_0000_0000, 8);
    }
  }

  /** 2^31 written to an INT32 field is read back as another number. */
  lemma Int32Truncates()
    ensures ReadBack(INT32, Write(INT32, Integer(0x8000_0000)).body) != Integer(0x8000_0000)
  {
    ReadsBack(INT32, Integer(0x8000_0000));
  }

  lemma Wraps(i: int, range: nat)
    requires range == 0x1_0000_0000 || range == 0x1_0000_0000_0000_0000
    ensures Signed(i % range, range) == i <==> -(range / 2) <= i < range / 2
  {
  }

  // ------------------------------------------------------------ replacing

  /** Overwriting the bytes of s from `offset` on. */
  function Over(s: Text, offset: nat, body: Text): Text
    requires offset + |body| <= |s|
  {
    s[..offset] + body + s[offset + |body|..]
  }

  ghost function Changed(fs: seq<Field>, j: nat, bytes: Text): seq<Field>
    requires j < |fs|
  {
    fs[j := fs[j].(body := Raw(bytes))]
  }

  lemma PackedAround(fs: seq<Field>, j: nat)
    requires j < |fs|
    ensures PackedAll(fs) == PackedAll(fs[..j]) + Packed(fs[j]) + PackedAll(fs[j + 1..])
  {
    hide PackedAll, Packed;
    SplitAt(fs, j);
    NextAt(fs, j);
  }

  lemma PackedChanged(fs: seq<Field>, j: nat, bytes: Text)
    requires j < |fs|
    ensures PackedAll(fs) == PackedAll(fs[..j]) + Packed(fs[j]) + PackedAll(fs[j + 1..])
    ensures PackedAll(Changed(fs, j, bytes)) == PackedAll(fs[..j]) + Packed(fs[j].(body := Raw(bytes))) + PackedAll(fs[j + 1..])
  {
    hide PackedAll, Packed;
    var fs' := Changed(fs, j, bytes);
    PackedAround(fs, j);
    PackedAround(fs', j);
    assert fs'[..j] == fs[..j] && fs'[j + 1..] == fs[j + 1..];
  }

  lemma OverText(head: Text, a: Text, front: Text, was: Text, bytes: Text, b: Text)
    requires |bytes| == |was|
    ensures var doc, start := head + (a + (front + was) + b) + [0], |head| + |a| + |front|;
      start + |bytes| <= |doc| && Over(doc, start, bytes) == head + (a + (front + bytes) + b) + [0]
  {
    var doc, start := head + (a + (front + was) + b) + [0], |head| + |a| + |front|;
    assert doc == (head + a + front) + was + (b + [0]);
    assert doc[..start] == head + a + front && doc[start + |was|..] == b + [0];
  }

  lemma Overwrites(head: Text, a: Text, f: Field, bytes: Text, b: Text)
    requires |bytes| == |PackedBody(f.body)| && |head| == 4
    ensures var doc, start := head + (a + Packed(f) + b) + [0], 4 + |a| + 2 + |f.key|;
      && start + |bytes| <= |doc|
      && Over(doc, start, bytes) == head + (a + Packed(f.(body := Raw(bytes))) + b) + [0]
      && |a + Packed(f.(body := Raw(bytes))) + b| == |a + Packed(f) + b|
  {
    RawBody(f.(body := Raw(bytes)));
    hide PackedBody, Over;
    OverText(head, a, [f.t] + f.key + [0], PackedBody(f.body), bytes, b);
  }

  /** The body of an indexed field. */
  lemma FixedBody(f: Field)
    requires Wellformed(f) && FixedSize(f.t) > 0
    ensures f.body.Raw? && |f.body.bytes| == FixedSize(f.t) && f.t < 32
  {
  }

  lemma FixedWellformed(f: Field, bytes: Text)
    requires Wellformed(f) && |bytes| == FixedSize(f.t) > 0
    ensures Wellformed(f.(body := Raw(bytes)))
  {
  }

  lemma OverwritesField(doc: Text, fs: seq<Field>, j: nat, bytes: Text)
    requires IsDocument(doc, fs) && j < |fs| && |bytes| == FixedSize(fs[j].t) > 0
    ensures Start(fs, j) + |bytes| <= |doc| && IsDocument(Over(doc, Start(fs, j), bytes), Changed(fs, j, bytes))
  {
    hide PackedAll, Wellformed, Packed, Over, FixedSize, Bytes, PackedBody;
    FixedBody(fs[j]);
    RawBody(fs[j]);
    PackedChanged(fs, j, bytes);
    Overwrites(Bytes(|PackedAll(fs)| + 5, 4), PackedAll(fs[..j]), fs[j], bytes, PackedAll(fs[j + 1..]));
    FixedWellformed(fs[j], bytes);
  }

  lemma RawBody(f: Field)
    requires f.body.Raw?
    ensures PackedBody(f.body) == f.body.bytes
  {
  }

  datatype Result = Done(doc: Text) | NotIndexed | WrongType

  /** lreplace. */
  method Replace(doc: Text, index: map<Text, Word>, key: Text, v: Value, ghost fs: seq<Field>, ghost j: nat) returns (r: Result)
    requires Proper(v)
    ensures r == NotIndexed <==> key !in index
    ensures IsDocument(doc, fs) && Indexes(index, fs, |fs|) && j < |fs| && fs[j].key == key && FixedSize(fs[j].t) > 0 ==>
      var w := Write(fs[j].t, v);
      if w == Mismatch then r == WrongType else r.Done? && IsDocument(r.doc, Changed(fs, j, w.body))
  {
    hide IsDocument, Start, Write, Over, Indexes, Id, FixedSize, TypeOf, OffsetOf;
    ghost var indexed := IsDocument(doc, fs) && Indexes(index, fs, |fs|) && j < |fs| && fs[j].key == key && FixedSize(fs[j].t) > 0;
    if indexed {
      IndexAt(doc, index, fs, j);
    }
    if key !in index {
      return NotIndexed;
    }
    var t, offset := TypeOf(index[key]), OffsetOf(index[key]);
    var w := Write(t, v);
    if w == Mismatch || offset + |w.body| > |doc| {
      r := WrongType;
    } else {
      r := Done(Over(doc, offset, w.body));
    }
    if indexed && w.Wrote? {
      OverwritesField(doc, fs, j, w.body);
    }
  }

  lemma IndexAt(doc: Text, index: map<Text, Word>, fs: seq<Field>, j: nat)
    requires IsDocument(doc, fs) && Indexes(index, fs, |fs|) && j < |fs| && FixedSize(fs[j].t) > 0
    ensures fs[j].key in index && TypeOf(index[fs[j].key]) == fs[j].t && OffsetOf(index[fs[j].key]) == Start(fs, j)
  {
    hide Id, TypeOf, OffsetOf, Start, Wellformed, Document, FixedSize;
    FixedBody(fs[j]);
    OverwritesField(doc, fs, j, fs[j].body.bytes);
    IdUnpacks(fs[j].t, Start(fs, j));
  }

  /** Index, replace, decode: the fields are those of the document with only the value of the key changed,
      and it reads as the value given. */
  method ReplaceThenDecode(doc: Text, key: Text, v: Value, ghost fs: seq<Field>, ghost j: nat) returns (ok: bool, fields: seq<Field>)
    requires IsDocument(doc, fs) && j < |fs| && fs[j].key == key && FixedSize(fs[j].t) > 0
    requires Proper(v) && Write(fs[j].t, v).Wrote?
    ensures ok && |fields| == |fs| && forall k :: 0 <= k < |fs| && k != j ==> fields[k] == fs[k]
    ensures fields[j].t == fs[j].t && fields[j].key == key && fields[j].body.Raw? && |fields[j].body.bytes| == FixedSize(fs[j].t)
    ensures (fs[j].t == INT32 ==> -0x8000_0000 <= v.i < 0x8000_0000) && (fs[j].t == BOOLEAN ==> v.Bool?) ==>
      ReadBack(fields[j].t, fields[j].body.bytes) == v
  {
    hide IsDocument, Write, FixedSize, ReadBack;
    var index;
    ok, index := MakeIndex(doc, fs);
    ghost var w := Write(fs[j].t, v);
    var r := Replace(doc, index, key, v, fs, j);
    ReadsBack(fs[j].t, v);
    if r.Done? {
      DocumentIs(r.doc, Changed(fs, j, w.body));
      ok, fields := Decode(r.doc);
    } else {
      fields := [];
    }
  }

  lemma DocumentIs(doc: Text, fs: seq<Field>)
    requires IsDocument(doc, fs)
    ensures doc == Document(fs) && WellformedDocument(fs)
  {
  }
}
