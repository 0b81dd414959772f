/** The sorted array of service names of skynet_handle.c, shown to behave as a list of names searched
    from end to end. */
module HandleNames {
  /** A C string, without its final zero byte. */
  type Text = seq<bv8>
  type Handle = h: nat | h < 0x1_0000_0000

  datatype Name = Name(name: Text, handle: Handle)

  /** The sign of strcmp. */
  function Compare(a: Text, b: Text): int {
    if a == [] && b == [] then 0
    else if a == [] then -1
    else if b == [] then 1
    else if a[0] == b[0] then Compare(a[1..], b[1..])
    else if a[0] < b[0] then -1
    else 1
  }

  lemma {:induction false} CompareEqual(a: Text, b: Text)
    ensures Compare(a, b) == 0 <==> a == b
    ensures Compare(a, b) > 0 <==> Compare(b, a) < 0
  {
    if a != [] && b != [] {
      CompareEqual(a[1..], b[1..]);
      if a[0] == b[0] && a[1..] == b[1..] {
        assert a == [a[0]] + a[1..] && b == [b[0]] + b[1..];
      }
    }
  }

  lemma {:induction false} CompareChain(a: Text, b: Text, c: Text)
    requires Compare(a, b) < 0 && Compare(b, c) < 0
    ensures Compare(a, c) < 0
  {
    if a != [] && b != [] && c != [] && a[0] == b[0] == c[0] {
      CompareChain(a[1..], b[1..], c[1..]);
    }
  }

  ghost predicate Sorted(es: seq<Name>) {
    forall i, j :: 0 <= i < j < |es| ==> Compare(es[i].name, es[j].name) < 0
  }

  /** What a name stands for: 0 when it is not in the list. */
  ghost function HandleOf(es: seq<Name>, name: Text): Handle {
    if es == [] then 0
    else if es[|es| - 1].name == name then es[|es| - 1].handle
    else HandleOf(es[..|es| - 1], name)
  }

  lemma {:induction false} HandleAt(es: seq<Name>, i: nat)
    requires Sorted(es) && i < |es|
    ensures HandleOf(es, es[i].name) == es[i].handle
  {
    if i < |es| - 1 {
      CompareEqual(es[i].name, es[|es| - 1].name);
      HandleAt(es[..|es| - 1], i);
    }
  }

  lemma {:induction false} NoHandle(es: seq<Name>, name: Text)
    requires forall i :: 0 <= i < |es| ==> es[i].name != name
    ensures HandleOf(es, name) == 0
  {
    if es != [] {
      NoHandle(es[..|es| - 1], name);
    }
  }

  lemma {:induction false} HandleOfParts(a: seq<Name>, b: seq<Name>, name: Text)
    ensures HandleOf(a + b, name) == if exists i :: 0 <= i < |b| && b[i].name == name then HandleOf(b, name) else HandleOf(a, name)
  {
    if b == [] {
      assert a + b == a;
    } else {
      var n := |b| - 1;
      assert (a + b)[..|a + b| - 1] == a + b[..n];
      HandleOfParts(a, b[..n], name);
      assert forall i :: 0 <= i < n ==> b[..n][i] == b[i];
    }
  }

  /** The list with a name put in before place k. */
  ghost function Inserted(es: seq<Name>, k: nat, e: Name): seq<Name>
    requires k <= |es|
  {
    es[..k] + [e] + es[k..]
  }

  /** The names of other handles. */
  ghost function Without(es: seq<Name>, handle: Handle): seq<Name> {
    if es == [] then []
    else Without(es[..|es| - 1], handle) + if es[|es| - 1].handle == handle then [] else [es[|es| - 1]]
  }

  lemma {:induction false} WithoutIn(es: seq<Name>, handle: Handle)
    ensures forall e :: e in Without(es, handle) <==> e in es && e.handle != handle
    ensures |Without(es, handle)| <= |es|
  {
    if es != [] {
      WithoutIn(es[..|es| - 1], handle);
      assert es == es[..|es| - 1] + [es[|es| - 1]];
    }
  }

  lemma {:induction false} WithoutSorted(es: seq<Name>, handle: Handle)
    requires Sorted(es)
    ensures Sorted(Without(es, handle))
  {
    if es != [] {
      var front, last := es[..|es| - 1], es[|es| - 1];
      WithoutSorted(front, handle);
      WithoutIn(front, handle);
      var w := Without(front, handle);
      forall i | 0 <= i < |w|
        ensures Compare(w[i].name, last.name) < 0
      {
        assert w[i] in front;
      }
    }
  }

  /** Dropping a handle takes away its names and no others. */
  lemma {:induction false} WithoutHandle(es: seq<Name>, handle: Handle, name: Text)
    requires Sorted(es)
    ensures HandleOf(Without(es, handle), name) == if HandleOf(es, name) == handle then 0 else HandleOf(es, name)
  {
    if es != [] {
      var front, last := es[..|es| - 1], es[|es| - 1];
      WithoutHandle(front, handle, name);
      var w := Without(front, handle);
      assert (w + [last])[..|w|] == w && w + [] == w;
      if last.name == name {
        forall i | 0 <= i < |front|
          ensures front[i].name != name
        {
          CompareEqual(es[i].name, last.name);
        }
        NoHandle(front, name);
      }
    }
  }

  class Names {
    var name: array<Name>
    var count: nat

    ghost predicate Valid()
      reads this, name
    {
      count <= name.Length && 0 < name.Length && Sorted(name[..count])
    }

    constructor (blank: Name)
      ensures Valid() && fresh(name) && count == 0
    {
      name := new Name[2](_ => blank);
      count := 0;
    }

    /** The binary search that skynet_handle_findname and _insert_name have in common. */
    method Search(key: Text) returns (found: bool, at: nat)
      requires Valid()
      ensures at <= count && (found ==> at < count && name[at].name == key)
      ensures !found ==> forall i :: 0 <= i < at ==> Compare(name[i].name, key) < 0
      ensures !found ==> forall i :: at <= i < count ==> Compare(key, name[i].name) < 0
    {
      var begin, end := 0, count - 1;
      while begin <= end
        invariant 0 <= begin <= end + 1 <= count
        invariant forall i :: 0 <= i < begin ==> Compare(name[i].name, key) < 0
        invariant forall i :: end < i < count ==> Compare(key, name[i].name) < 0
        decreases end - begin
      {
        var mid := (begin + end) / 2;
        var c := Compare(name[mid].name, key);
        CompareEqual(name[mid].name, key);
        if c == 0 {
          return true, mid;
        }
        if c < 0 {
          forall i | 0 <= i < mid
            ensures Compare(name[i].name, key) < 0
          {
            Apart(i, mid);
            CompareChain(name[i].name, name[mid].name, key);
          }
          begin := mid + 1;
        } else {
          forall i | mid < i < count
            ensures Compare(key, name[i].name) < 0
          {
            Apart(mid, i);
            CompareChain(key, name[mid].name, name[i].name);
          }
          end := mid - 1;
        }
      }
      found, at := false, begin;
    }

    lemma Apart(i: nat, j: nat)
      requires Valid() && i < j < count
      ensures Compare(name[i].name, name[j].name) < 0
    {
      assert name[..count][i] == name[i] && name[..count][j] == name[j];
    }

    /** skynet_handle_findname. */
    method Find(key: Text) returns (handle: Handle)
      requires Valid()
      ensures handle == HandleOf(name[..count], key)
    {
      var found, at := Search(key);
      if found {
        HandleAt(name[..count], at);
        return name[at].handle;
      }
      forall i | 0 <= i < count
        ensures name[i].name != key
      {
        CompareEqual(name[i].name, key);
      }
      NoHandle(name[..count], key);
      handle := 0;
    }

    /** _insert_name_before, when the array is full: everything is copied to one twice as long. */
    method Grow(e: Name, before: nat)
      requires before <= count == name.Length && 0 < name.Length
      modifies this
      ensures fresh(name) && count == old(count) + 1 <= name.Length && name[..count] == Inserted(old(name[..count]), before, e)
    {
      ghost var es := name[..count];
      var n := new Name[name.Length * 2](_ => e);
      CopyTo(n, 0, before, 0);
      CopyTo(n, before, count, 1);
      n[before] := e;
      assert n[..before] == es[..before] && n[before + 1..count + 1] == es[before..];
      assert n[..count + 1] == n[..before] + [n[before]] + n[before + 1..count + 1];
      name, count := n, count + 1;
    }

    /** The names from `from` up to `to`, copied to places `up` further on. */
    method CopyTo(n: array<Name>, from: nat, to: nat, up: nat)
      requires n != name && from <= to <= count <= name.Length && to + up <= n.Length
      modifies n
      ensures n[from + up..to + up] == name[from..to]
      ensures n[..from + up] == old(n[..from + up])
    {
      ghost var front := n[..from + up];
      for i := from to to
        invariant n[from + up..i + up] == name[from..i] && n[..from + up] == front
      {
        n[i + up] := name[i];
        assert n[from + up..i + 1 + up] == n[from + up..i + up] + [name[i]];
      }
    }

    /** Otherwise: the names behind move up in place. */
    method ShiftUp(e: Name, before: nat)
      requires before <= count < name.Length
      modifies this`count, name
      ensures count == old(count) + 1 && name[..count] == Inserted(old(name[..count]), before, e)
    {
      ghost var es, all := name[..count], name[..count + 1];
      var i := count;
      assert all == Inserted(es, i, all[i]);
      while i > before
        invariant before <= i <= count == |es| && name == old(name) && name[..count + 1] == all
        invariant |all| == count + 1 && all == Inserted(es, i, all[i])
      {
        InsertedMoves(es, i, all[i]);
        name[i] := name[i - 1];
        all := all[i := all[i - 1]];
        i := i - 1;
      }
      name[before] := e;
      count := count + 1;
      assert name[..count] == all[before := e];
    }

    /** A gap at i moves down by copying the element before it into it. */
    static lemma InsertedMoves(es: seq<Name>, i: nat, gap: Name)
      requires 0 < i <= |es|
      ensures var all := Inserted(es, i, gap);
        |all| == |es| + 1 && all[i := all[i - 1]] == Inserted(es, i - 1, all[i - 1])
    {
    }

    /** skynet_handle_namehandle. */
    method Insert(key: Text, handle: Handle) returns (ok: bool)
      requires Valid()
      modifies this, name
      ensures Valid() && (name == old(name) || fresh(name))
      ensures ok <==> forall i :: 0 <= i < old(count) ==> old(name[..count])[i].name != key
      ensures forall k :: HandleOf(name[..count], k) == if ok && k == key then handle else HandleOf(old(name[..count]), k)
    {
      var found, at := Search(key);
      if found {
        assert name[..count][at].name == key;
        return false;
      }
      var e := Name(key, handle);
      Placed(name[..count], at, e);
      if count >= name.Length {
        Grow(e, at);
      } else {
        ShiftUp(e, at);
      }
      ok := true;
    }

    /** The loop of skynet_handle_retire that drops the names of a handle. */
    method Drop(handle: Handle)
      requires Valid()
      modifies this`count, name
      ensures Valid() && name[..count] == Without(old(name[..count]), handle)
      ensures forall k ::
        HandleOf(name[..count], k) == if HandleOf(old(name[..count]), k) == handle then 0 else HandleOf(old(name[..count]), k)
    {
      ghost var es := name[..count];
      Compact(handle);
      WithoutSorted(es, handle);
      forall k
        ensures HandleOf(Without(es, handle), k) == if HandleOf(es, k) == handle then 0 else HandleOf(es, k)
      {
        WithoutHandle(es, handle, k);
      }
    }

    method Compact(handle: Handle)
      requires count <= name.Length
      modifies this`count, name
      ensures count <= name.Length && name[..count] == Without(old(name[..count]), handle)
    {
      ghost var es := name[..count];
      var j, n := 0, count;
      for i := 0 to n
        invariant j <= i && count == n == |es| && name == old(name)
        invariant name[..j] == Without(es[..i], handle) && name[i..n] == es[i..]
      {
        ghost var front := name[..j];
        assert es[..i + 1][..i] == es[..i] && es[i] == name[i..n][0] == name[i];
        assert name[i + 1..n] == name[i..n][1..] == es[i + 1..];
        if name[i].handle != handle {
          if i != j {
            name[j] := name[i];
          }
          assert name[i + 1..n] == es[i + 1..];
          assert name[..j + 1] == front + [es[i]];
          j := j + 1;
        }
      }
      assert es[..n] == es;
      count := j;
    }
  }

  lemma InsertedSorted(es: seq<Name>, at: nat, e: Name)
    requires Sorted(es) && at <= |es|
    requires forall i :: 0 <= i < at ==> Compare(es[i].name, e.name) < 0
    requires forall i :: at <= i < |es| ==> Compare(e.name, es[i].name) < 0
    ensures Sorted(Inserted(es, at, e))
  {
    hide Compare;
    var r := Inserted(es, at, e);
    assert forall i :: 0 <= i < |r| ==> r[i] == if i < at then es[i] else if i == at then e else es[i - 1];
  }

  lemma InsertedHandle(es: seq<Name>, at: nat, e: Name, k: Text)
    requires at <= |es| && forall i :: 0 <= i < |es| ==> es[i].name != e.name
    ensures HandleOf(Inserted(es, at, e), k) == if k == e.name then e.handle else HandleOf(es, k)
  {
    var a, b := es[..at], es[at..];
    HandleOfParts(a + [e], b, k);
    HandleOfParts(a, b, k);
    assert HandleOf(a + [e], k) == if k == e.name then e.handle else HandleOf(a, k) by {
      assert (a + [e])[..at] == a;
    }
    hide HandleOf;
    assert es == a + b;
    assert forall i :: 0 <= i < |b| ==> b[i] == es[at + i];
  }

  /** A name put where the search ended keeps the order, and changes what that name stands for. */
  lemma Placed(es: seq<Name>, at: nat, e: Name)
    requires Sorted(es) && at <= |es|
    requires forall i :: 0 <= i < at ==> Compare(es[i].name, e.name) < 0
    requires forall i :: at <= i < |es| ==> Compare(e.name, es[i].name) < 0
    ensures Sorted(Inserted(es, at, e)) && forall i :: 0 <= i < |es| ==> es[i].name != e.name
    ensures forall k :: HandleOf(Inserted(es, at, e), k) == if k == e.name then e.handle else HandleOf(es, k)
  {
    hide HandleOf, Sorted, Inserted;
    InsertedSorted(es, at, e);
    forall i | 0 <= i < |es|
      ensures es[i].name != e.name
    {
      CompareEqual(es[i].name, e.name);
    }
    forall k
      ensures HandleOf(Inserted(es, at, e), k) == if k == e.name then e.handle else HandleOf(es, k)
    {
      InsertedHandle(es, at, e, k);
    }
  }
}
