/** Splitting byte streams into packages: a two-byte big-endian length, then the data (lua-netpack.c). */
module Framing {
  type Byte = b: nat | b < 256

  type Bytes = seq<Byte>

  datatype Packed = Packed(bytes: Bytes) | TooLong

  /** lpack, with write_size: the size comes first, its more significant byte before the other. */
  function Pack(msg: Bytes): (r: Packed)
    ensures r.Packed? <==> |msg| < 0x10000
    ensures r.Packed? ==> |r.bytes| == 2 + |msg| && (r.bytes[0] as int) * 256 + r.bytes[1] == |msg| && r.bytes[2..] == msg
  {
    if |msg| >= 0x10000 then TooLong else Packed([(|msg| / 256) % 256, |msg| % 256] + msg)
  }

  /** read_size. */
  function SizeOf(hi: Byte, lo: Byte): nat { hi * 256 + lo }

  /** What a stream consists of: whole packages, and the beginning of another one. */
  datatype Parsed = Parsed(packs: seq<Bytes>, rest: Bytes)

  predicate Incomplete(s: Bytes) {
    |s| < 2 || |s| - 2 < SizeOf(s[0], s[1])
  }

  function Parse(s: Bytes): Parsed {
    if Incomplete(s) then Parsed([], s)
    else
      var end := 2 + SizeOf(s[0], s[1]);
      var p := Parse(s[end..]);
      Parsed([s[2..end]] + p.packs, p.rest)
  }

  lemma ParseStep(s: Bytes)
    ensures Incomplete(s) ==> Parse(s) == Parsed([], s)
    ensures !Incomplete(s) ==>
      var end := 2 + SizeOf(s[0], s[1]);
      end <= |s| && Parse(s) == Parsed([s[2..end]] + Parse(s[end..]).packs, Parse(s[end..]).rest)
  {
  }

  /** However a stream is cut in two, parsing the second part after what the first left gives the same. */
  lemma {:induction false} ParseAppend(a: Bytes, b: Bytes)
    ensures var p := Parse(a); var q := Parse(p.rest + b); Parse(a + b) == Parsed(p.packs + q.packs, q.rest)
    ensures Incomplete(Parse(a).rest)
  {
    hide Parse, SizeOf;
    ParseStep(a);
    if Incomplete(a) {
      assert [] + Parse(a + b).packs == Parse(a + b).packs;
    } else {
      var end := 2 + SizeOf(a[0], a[1]);
      ParseAppend(a[end..], b);
      ParseStep(a + b);
      assert (a + b)[end..] == a[end..] + b && (a + b)[2..end] == a[2..end];
      var p := Parse(a[end..]);
      var q := Parse(p.rest + b);
      assert ([a[2..end]] + p.packs) + q.packs == [a[2..end]] + (p.packs + q.packs);
    }
  }

  function Concat(chunks: seq<Bytes>): Bytes {
    if chunks == [] then [] else chunks[0] + Concat(chunks[1..])
  }

  /** Feeding a stream chunk by chunk. */
  function Feed(rest: Bytes, chunks: seq<Bytes>): Parsed
    decreases chunks
  {
    if chunks == [] then Parsed([], rest)
    else
      var p := Parse(rest + chunks[0]);
      var q := Feed(p.rest, chunks[1..]);
      Parsed(p.packs + q.packs, q.rest)
  }

  lemma ParseIncomplete(s: Bytes)
    requires Incomplete(s)
    ensures Parse(s) == Parsed([], s)
  {
  }

  /** The packages do not depend on how the stream was cut into chunks. */
  lemma {:induction false} ChunkingIsIrrelevant(rest: Bytes, chunks: seq<Bytes>)
    requires Incomplete(rest)
    ensures Feed(rest, chunks) == Parse(rest + Concat(chunks))
    decreases chunks
  {
    hide Parse, Incomplete;
    if chunks == [] {
      assert rest + [] == rest;
      ParseIncomplete(rest);
    } else {
      var c, more := chunks[0], chunks[1..];
      ParseAppend(rest + c, Concat(more));
      ChunkingIsIrrelevant(Parse(rest + c).rest, more);
      assert rest + Concat(chunks) == (rest + c) + Concat(more);
    }
  }

  /** The messages packed and sent back to back. */
  function PackAll(msgs: seq<Bytes>): Bytes
    requires forall k :: 0 <= k < |msgs| ==> |msgs[k]| < 0x10000
  {
    if msgs == [] then [] else Pack(msgs[0]).bytes + PackAll(msgs[1..])
  }

  lemma {:induction false} PackedComeBack(msgs: seq<Bytes>)
    requires forall k :: 0 <= k < |msgs| ==> |msgs[k]| < 0x10000
    ensures Parse(PackAll(msgs)) == Parsed(msgs, [])
  {
    if msgs != [] {
      var m, more := msgs[0], PackAll(msgs[1..]);
      PackedComeBack(msgs[1..]);
      var s := Pack(m).bytes + more;
      assert SizeOf(s[0], s[1]) == |m|;
      assert s[2..2 + |m|] == m && s[2 + |m|..] == more;
      assert msgs == [m] + msgs[1..];
    }
  }
}

module Netpack {
  import opened Framing
  import opened Rings

  const QUEUESIZE := 1024
  const HASHSIZE := 4096

  type Fd = n: nat | n < 0x8000_0000

  /** hash_fd. */
  function HashFd(fd: Fd): nat {
    (fd / 0x100_0000 + fd / 0x1000 + fd) % 0x1_0000_0000 % HASHSIZE
  }

  /** struct uncomplete.  With `read` < 0 only the first byte of the length has come, in `header`;
      otherwise data holds the `read` bytes that came of a package of `size`. */
  datatype Uncomplete = Uncomplete(id: Fd, read: int, header: Byte, size: nat, data: Bytes) {
    ghost predicate Ok() {
      if read < 0 then read == -1 else |data| == read < size < 0x10000
    }

    /** The bytes of the stream it stands for. */
    ghost function Bytes(): Bytes
      requires Ok()
    {
      if read < 0 then [header] else Head(size) + data
    }
  }

  /** The two bytes of a length. */
  ghost function Head(size: nat): Bytes
    requires size < 0x10000
  {
    [size / 256, size % 256]
  }

  datatype Package = Package(fd: Fd, data: Bytes)

  datatype Result = Nothing | Data(pkg: Package) | More

  lemma SizeHead(hi: Byte, lo: Byte)
    ensures SizeOf(hi, lo) < 0x10000 && Head(SizeOf(hi, lo)) == [hi, lo]
  {
  }

  lemma HeadSize(size: nat, more: Bytes)
    requires size < 0x10000
    ensures var s := Head(size) + more; SizeOf(s[0], s[1]) == size && s[2..] == more
  {
  }

  /** A package that has not come completely. */
  lemma ParseShort(size: nat, data: Bytes)
    requires |data| < size < 0x10000
    ensures Parse(Head(size) + data) == Parsed([], Head(size) + data)
  {
  }

  /** A package followed by more. */
  lemma ParseFull(size: nat, data: Bytes, more: Bytes)
    requires |data| == size < 0x10000
    ensures Parse(Head(size) + (data + more)) == Parsed([data] + Parse(more).packs, Parse(more).rest)
  {
    var s := Head(size) + (data + more);
    HeadSize(size, data + more);
    assert s[2..2 + size] == data && s[2 + size..] == more;
  }

  /** The packages of one socket. */
  ghost function From(fd: Fd, packs: seq<Bytes>): seq<Package> {
    seq(|packs|, k requires 0 <= k < |packs| => Package(fd, packs[k]))
  }

  // ------------------------------------------------------------ hash chains

  type Pending = map<Fd, Uncomplete>

  /** A chain holds what is pending for the sockets of its hash value, each once. */
  ghost predicate ChainOk(chain: seq<Uncomplete>, h: nat, pending: Pending) {
    && (forall i :: 0 <= i < |chain| ==> HashFd(chain[i].id) == h && chain[i].id in pending && pending[chain[i].id] == chain[i])
    && (forall i, j :: 0 <= i < j < |chain| ==> chain[i].id != chain[j].id)
    && (forall fd :: fd in pending && HashFd(fd) == h ==> pending[fd] in chain && pending[fd].id == fd)
  }

  lemma ChainAdd(chain: seq<Uncomplete>, h: nat, pending: Pending, uc: Uncomplete)
    requires ChainOk(chain, h, pending) && uc.id !in pending
    ensures HashFd(uc.id) == h ==> ChainOk([uc] + chain, h, pending[uc.id := uc])
    ensures HashFd(uc.id) != h ==> ChainOk(chain, h, pending[uc.id := uc])
  {
  }

  lemma ChainRemove(chain: seq<Uncomplete>, h: nat, pending: Pending, i: nat)
    requires ChainOk(chain, h, pending) && i < |chain|
    ensures ChainOk(chain[..i] + chain[i + 1..], h, pending - {chain[i].id})
  {
  }

  lemma ChainElsewhere(chain: seq<Uncomplete>, h: nat, pending: Pending, fd: Fd)
    requires ChainOk(chain, h, pending) && HashFd(fd) != h
    ensures ChainOk(chain, h, pending - {fd})
  {
  }

  class Ring {
    var queue: seq<Package>
    var head: nat
    var tail: nat

    ghost predicate Valid()
      reads this
    {
      head < |queue| && tail < |queue|
    }

    /** The packages waiting, oldest first. */
    ghost function Contents(): seq<Package>
      requires Valid()
      reads this
    {
      Unroll(queue, head, tail)
    }

    constructor (blank: Package)
      ensures Valid() && Contents() == []
    {
      queue, head, tail := seq(QUEUESIZE, _ => blank), 0, 0;
    }

    /** expand_queue, when a push has just filled the ring. */
    method Expand(blank: Package)
      requires Valid() && head == tail
      modifies this
      ensures Valid() && Contents() == old(queue[head..] + queue[..head])
    {
      var cap := |queue|;
      ghost var full := queue[head..] + queue[..head];
      var bigger := seq(cap + QUEUESIZE, _ => blank);
      for i := 0 to cap
        invariant |bigger| == cap + QUEUESIZE && forall j :: 0 <= j < i ==> bigger[j] == full[j]
        modifies {}
      {
        Wrap(head + i, cap);
        var idx := (head + i) % cap;
        bigger := bigger[i := queue[idx]];
      }
      assert bigger[..cap] == full;
      head, tail, queue := 0, cap, bigger;
    }

    /** push_data. */
    method Push(p: Package)
      requires Valid()
      modifies this
      ensures Valid() && Contents() == old(Contents()) + [p]
    {
      ghost var before := Contents();
      queue := queue[tail := p];
      tail := tail + 1;
      if tail >= |queue| {
        tail := tail - |queue|;
      }
      if head == tail {
        assert queue[head..] + queue[..head] == before + [p];
        Expand(p);
      }
    }

    /** lpop. */
    method Pop() returns (found: bool, p: Package)
      requires Valid()
      modifies this`head
      ensures Valid() && (found <==> old(Contents()) != [])
      ensures if found then old(Contents()) == [p] + Contents() else Contents() == []
    {
      hide Unroll;
      found, p := head != tail, queue[head];
      UnrollHead(queue, head, tail);
      if found {
        head := head + 1;
        if head >= |queue| {
          head := 0;
        }
      }
    }
  }

  // ------------------------------------------------------------ the filter

  /** After a step on fd, what is pending stands for the bytes `rest`; other sockets are as before. */
  ghost predicate Left(pending: Pending, pending': Pending, fd: Fd, rest: Bytes) {
    && (fd in pending' <==> rest != [])
    && (fd in pending' ==> pending'[fd].Ok() && pending'[fd].Bytes() == rest)
    && pending' - {fd} == pending - {fd}
  }

  ghost function Rest(pending: Pending, fd: Fd): Bytes {
    if fd in pending && pending[fd].Ok() then pending[fd].Bytes() else []
  }

  ghost function At<T>(m: map<Fd, seq<T>>, fd: Fd): seq<T> {
    if fd in m then m[fd] else []
  }

  /** For every socket the packages handed out and the bytes pending are the parse of what came. */
  ghost predicate Parses(stream: map<Fd, Bytes>, log: map<Fd, seq<Bytes>>, pending: Pending) {
    forall fd: Fd {:trigger At(stream, fd)} {:trigger At(log, fd)} {:trigger Rest(pending, fd)} ::
      Parse(At(stream, fd)) == Parsed(At(log, fd), Rest(pending, fd))
  }

  class Filter {
    const ring: Ring
    var hash: seq<seq<Uncomplete>>
    ghost var pending: Pending
    ghost var stream: map<Fd, Bytes>        // the bytes that came from each socket
    ghost var log: map<Fd, seq<Bytes>>      // the packages handed out for it

    ghost predicate Chains()
      reads this`hash, this`pending
    {
      && |hash| == HASHSIZE && (forall h :: 0 <= h < HASHSIZE ==> ChainOk(hash[h], h, pending))
      && (forall fd :: fd in pending ==> pending[fd].Ok())
    }

    ghost predicate Valid()
      reads this, ring
    {
      ring.Valid() && Chains() && Parses(stream, log, pending)
    }

    constructor (blank: Package)
      ensures Valid() && fresh(ring) && ring.Contents() == [] && stream == map[] && log == map[]
    {
      ring := new Ring(blank);
      hash := seq(HASHSIZE, _ => []);
      pending, stream, log := map[], map[], map[];
    }

    /** find_uncomplete: the entry is taken out of its chain. */
    method Find(fd: Fd) returns (found: bool, uc: Uncomplete)
      requires Chains()
      modifies this`hash, this`pending
      ensures Chains() && pending == old(pending) - {fd}
      ensures found <==> fd in old(pending)
      ensures found ==> uc == old(pending)[fd] && uc.Ok() && uc.id == fd
    {
      var h := HashFd(fd);
      var chain := hash[h];
      found, uc := false, Uncomplete(fd, -1, 0, 0, []);
      var i := 0;
      while i < |chain| && chain[i].id != fd
        invariant i <= |chain| && forall k :: 0 <= k < i ==> chain[k].id != fd
      {
        i := i + 1;
      }
      if i == |chain| {
        assert pending == pending - {fd};
        return;
      }
      found, uc := true, chain[i];
      Removed(h, i);
      hash := hash[h := chain[..i] + chain[i + 1..]];
      pending := pending - {fd};
    }

    lemma Removed(h: nat, i: nat)
      requires Chains() && h < HASHSIZE && i < |hash[h]|
      ensures var chain, fd := hash[h], hash[h][i].id;
        forall k :: 0 <= k < HASHSIZE ==> ChainOk(if k == h then chain[..i] + chain[i + 1..] else hash[k], k, pending - {fd})
    {
      var fd := hash[h][i].id;
      assert HashFd(fd) == h;
      forall k | 0 <= k < HASHSIZE
        ensures ChainOk(if k == h then hash[h][..i] + hash[h][i + 1..] else hash[k], k, pending - {fd})
      {
        assert ChainOk(hash[k], k, pending);
        if k == h {
          ChainRemove(hash[h], h, pending, i);
        } else {
          ChainElsewhere(hash[k], k, pending, fd);
        }
      }
    }

    /** save_uncomplete: the entry goes to the front of its chain. */
    method Save(uc: Uncomplete)
      requires Chains() && uc.id !in pending && uc.Ok()
      modifies this`hash, this`pending
      ensures Chains() && pending == old(pending)[uc.id := uc] && Left(old(pending), pending, uc.id, uc.Bytes())
    {
      var h := HashFd(uc.id);
      forall k | 0 <= k < HASHSIZE
        ensures ChainOk(if k == h then [uc] + hash[h] else hash[k], k, pending[uc.id := uc])
      {
        ChainAdd(hash[k], k, pending, uc);
      }
      BytesIncomplete(uc);
      hash := hash[h := [uc] + hash[h]];
      pending := pending[uc.id := uc];
    }

    /** The start of a package that is not complete: one byte, or a length with too little data. */
    method SaveStart(fd: Fd, buffer: Bytes)
      requires Chains() && fd !in pending && buffer != [] && Incomplete(buffer)
      modifies this`hash, this`pending
      ensures Chains() && Left(old(pending), pending, fd, buffer)
    {
      if |buffer| == 1 {
        assert buffer == [buffer[0]];
        Save(Uncomplete(fd, -1, buffer[0], 0, []));
      } else {
        SizeHead(buffer[0], buffer[1]);
        assert buffer == [buffer[0], buffer[1]] + buffer[2..];
        Save(Uncomplete(fd, |buffer| - 2, 0, SizeOf(buffer[0], buffer[1]), buffer[2..]));
      }
    }

    /** push_more. */
    method PushMore(fd: Fd, buffer: Bytes)
      requires ring.Valid() && Chains() && fd !in pending && buffer != []
      modifies this`hash, this`pending, ring
      ensures ring.Valid() && Chains()
      ensures ring.Contents() == old(ring.Contents()) + From(fd, Parse(buffer).packs)
      ensures Left(old(pending), pending, fd, Parse(buffer).rest)
      decreases |buffer|
    {
      hide Parse, Chains, Left, From;
      if Incomplete(buffer) {
        ParseIncomplete(buffer);
        NoMore(map[], fd);
        SaveStart(fd, buffer);
        return;
      }
      var size := SizeOf(buffer[0], buffer[1]);
      var data, more := buffer[2..2 + size], buffer[2 + size..];
      Cut(buffer);
      hide SizeOf, Incomplete;
      ring.Push(Package(fd, data));
      FromMore(fd, data, Parse(more).packs, old(ring.Contents()));
      if |more| > 0 {
        PushMore(fd, more);
      } else {
        NoMore(pending, fd);
      }
    }

    /** The rest of a package and what follows: the common end of both branches of filter_data_. */
    method Complete(fd: Fd, size: nat, data: Bytes, more: Bytes) returns (r: Result)
      requires ring.Valid() && Chains() && fd !in pending && |data| == size < 0x10000
      modifies this`hash, this`pending, ring
      ensures ring.Valid() && Chains()
      ensures var p := Parse(Head(size) + (data + more));
        HandsOut(r, fd, p, old(ring.Contents()), ring.Contents()) && Left(old(pending), pending, fd, p.rest)
    {
      hide Parse, Chains, Left, From;
      ParseFull(size, data, more);
      if more == [] {
        NoMore(pending, fd);
        return Data(Package(fd, data));
      }
      FromMore(fd, data, Parse(more).packs, ring.Contents());
      SomethingMore(more);
      ring.Push(Package(fd, data));
      PushMore(fd, more);
      r := More;
    }

    /** filter_data_, when part of a package was pending. */
    method Fill(uc: Uncomplete, chunk: Bytes) returns (r: Result)
      requires ring.Valid() && Chains() && uc.Ok() && uc.id !in pending && chunk != []
      modifies this`hash, this`pending, ring
      ensures ring.Valid() && Chains()
      ensures var p := Parse(uc.Bytes() + chunk);
        HandsOut(r, uc.id, p, old(ring.Contents()), ring.Contents()) && Left(old(pending), pending, uc.id, p.rest)
    {
      hide Parse, Chains, Left, HandsOut;
      var size, data, buffer := uc.size, uc.data, chunk;
      if uc.read < 0 {
        SizeHead(uc.header, buffer[0]);
        size, data, buffer := SizeOf(uc.header, buffer[0]), [], buffer[1..];
      }
      assert uc.Bytes() + chunk == Head(size) + (data + buffer);
      var need := size - |data|;
      if |buffer| < need {
        ParseShort(size, data + buffer);
        Save(Uncomplete(uc.id, |data + buffer|, uc.header, size, data + buffer));
        r := Nothing;
        Kept(r, uc.id, Head(size) + (data + buffer), ring.Contents());
        return;
      }
      assert data + buffer == (data + buffer[..need]) + buffer[need..];
      r := Complete(uc.id, size, data + buffer[..need], buffer[need..]);
    }

    /** filter_data_, when nothing was pending. */
    method Begin(fd: Fd, chunk: Bytes) returns (r: Result)
      requires ring.Valid() && Chains() && fd !in pending && chunk != []
      modifies this`hash, this`pending, ring
      ensures ring.Valid() && Chains()
      ensures var p := Parse(chunk);
        HandsOut(r, fd, p, old(ring.Contents()), ring.Contents()) && Left(old(pending), pending, fd, p.rest)
    {
      if Incomplete(chunk) {
        ParseIncomplete(chunk);
        hide Parse, Chains, Left;
        SaveStart(fd, chunk);
        return Nothing;
      }
      hide Parse, Chains, Left, HandsOut;
      var size := SizeOf(chunk[0], chunk[1]);
      SizeHead(chunk[0], chunk[1]);
      assert chunk == Head(size) + (chunk[2..2 + size] + chunk[2 + size..]);
      r := Complete(fd, size, chunk[2..2 + size], chunk[2 + size..]);
    }

    /** filter_data: a chunk of bytes came from the socket. */
    method FilterData(fd: Fd, chunk: Bytes) returns (r: Result)
      requires Valid() && chunk != []
      modifies this, ring
      ensures Valid() && stream == old(stream)[fd := At(old(stream), fd) + chunk]
      ensures var p := Parse(Rest(old(pending), fd) + chunk);
        && log == old(log)[fd := At(old(log), fd) + p.packs]
        && HandsOut(r, fd, p, old(ring.Contents()), ring.Contents())
    {
      hide Parse, Chains, Left, HandsOut, Parses, Rest;
      ghost var before, rest := pending, Rest(pending, fd);
      var found, uc := Find(fd);
      RestIs(before, fd);
      if found {
        r := Fill(uc, chunk);
      } else {
        assert rest + chunk == chunk;
        r := Begin(fd, chunk);
      }
      ghost var p := Parse(rest + chunk);
      ParsesOn(stream, log, before, pending, fd, chunk, p);
      stream, log := stream[fd := At(stream, fd) + chunk], log[fd := At(log, fd) + p.packs];
    }

    /** close_uncomplete: the socket is gone, and with it what was pending. */
    method Close(fd: Fd)
      requires Valid()
      modifies this
      ensures Valid() && stream == old(stream)[fd := []] && log == old(log)[fd := []] && fd !in pending
    {
      hide Chains, Parses;
      ParsesWithout(stream, log, pending, fd);
      var _, _ := Find(fd);
      stream, log := stream[fd := []], log[fd := []];
    }
  }

  lemma Kept(r: Result, fd: Fd, s: Bytes, contents: seq<Package>)
    requires r == Nothing && Parse(s) == Parsed([], s)
    ensures HandsOut(r, fd, Parse(s), contents, contents)
  {
  }

  lemma RestIs(pending: Pending, fd: Fd)
    requires fd in pending ==> pending[fd].Ok()
    ensures Rest(pending, fd) == if fd in pending then pending[fd].Bytes() else []
  {
  }

  /** A socket forgotten. */
  lemma ParsesWithout(stream: map<Fd, Bytes>, log: map<Fd, seq<Bytes>>, pending: Pending, fd: Fd)
    requires Parses(stream, log, pending)
    ensures Parses(stream[fd := []], log[fd := []], pending - {fd})
  {
    NoMore(map[], fd);
    hide Parse;
    var stream', log', pending' := stream[fd := []], log[fd := []], pending - {fd};
    forall g: Fd
      ensures Parse(At(stream', g)) == Parsed(At(log', g), Rest(pending', g))
    {
      assert Parse(At(stream, g)) == Parsed(At(log, g), Rest(pending, g));
      if g != fd {
        assert g in pending' <==> g in pending;
      }
    }
  }

  /** One more chunk keeps the log the parse of the stream. */
  lemma ParsesOn(stream: map<Fd, Bytes>, log: map<Fd, seq<Bytes>>, pending: Pending, pending': Pending, fd: Fd, chunk: Bytes, p: Parsed)
    requires Parses(stream, log, pending) && p == Parse(Rest(pending, fd) + chunk)
    requires Left(pending - {fd}, pending', fd, p.rest)
    ensures Parses(stream[fd := At(stream, fd) + chunk], log[fd := At(log, fd) + p.packs], pending')
  {
    hide Parse;
    var stream', log' := stream[fd := At(stream, fd) + chunk], log[fd := At(log, fd) + p.packs];
    forall g: Fd
      ensures Parse(At(stream', g)) == Parsed(At(log', g), Rest(pending', g))
    {
      assert Parse(At(stream, g)) == Parsed(At(log, g), Rest(pending, g));
      if g == fd {
        ParseAppend(At(stream, fd), chunk);
      } else {
        assert g in pending' <==> g in pending' - {fd};
        assert g in pending <==> g in (pending - {fd}) - {fd};
      }
    }
  }

  /** What a call of the filter hands out, given the parse p of what was pending and the chunk: nothing,
      the one package there is, or a notice that packages were put in the ring. */
  ghost predicate HandsOut(r: Result, fd: Fd, p: Parsed, before: seq<Package>, after: seq<Package>) {
    match r
    case Nothing => p.packs == [] && after == before
    case Data(pkg) => p == Parsed([pkg.data], []) && pkg.fd == fd && after == before
    case More => p.packs != [] && (|p.packs| > 1 || p.rest != []) && after == before + From(fd, p.packs)
  }

  /** Data beyond a first package gives a second one, or something pending. */
  lemma SomethingMore(more: Bytes)
    requires more != []
    ensures Parse(more).packs != [] || Parse(more).rest != []
  {
  }

  lemma Cut(buffer: Bytes)
    requires !Incomplete(buffer)
    ensures var size := SizeOf(buffer[0], buffer[1]);
      Parse(buffer) == Parsed([buffer[2..2 + size]] + Parse(buffer[2 + size..]).packs, Parse(buffer[2 + size..]).rest)
  {
  }

  lemma FromMore(fd: Fd, data: Bytes, packs: seq<Bytes>, before: seq<Package>)
    ensures (before + [Package(fd, data)]) + From(fd, packs) == before + From(fd, [data] + packs)
  {
  }

  lemma NoMore(pending: Pending, fd: Fd)
    requires fd !in pending
    ensures Left(pending, pending, fd, Parse([]).rest) && Parse([]) == Parsed([], []) && From(fd, []) == []
  {
  }

  lemma BytesIncomplete(uc: Uncomplete)
    requires uc.Ok()
    ensures Incomplete(uc.Bytes()) && uc.Bytes() != []
  {
  }
}