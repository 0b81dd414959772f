/** How lua-seri.c cuts a Lua table into an array part and the other entries, and that nothing is lost. */
module LuaTable {
  import opened SeriFormat

  /** The entries of a table in the order lua_next visits them.  Tables as keys are compared by identity,
      so only integer keys have to differ as values. */
  ghost predicate Raw(es: seq<Entry>) {
    && (forall k :: 0 <= k < |es| ==> es[k].key != Nil && es[k].val != Nil)
    && (forall j, k :: 0 <= j < k < |es| && es[j].key.Int? ==> es[j].key != es[k].key)
  }

  /** lua_rawgeti. */
  function Get(es: seq<Entry>, i: int): Value {
    if es == [] then Nil
    else if es[|es| - 1].key == Int(i) then es[|es| - 1].val
    else Get(es[..|es| - 1], i)
  }

  predicate InArray(key: Value, n: nat) { key.Int? && 0 < key.i <= n }

  /** The entries wb_table_hash does not skip. */
  ghost function Others(es: seq<Entry>, n: nat): seq<Entry> {
    if es == [] then []
    else Others(es[..|es| - 1], n) + if InArray(es[|es| - 1].key, n) then [] else [es[|es| - 1]]
  }

  ghost function Array(es: seq<Entry>, n: nat): seq<Value> {
    seq(n, i requires 0 <= i < n => Get(es, i + 1))
  }

  /** A table whose border, as lua_rawlen reports it, is n.  A table has several borders when some
      elements before one are nil; any of them will do. */
  ghost function TableOf(es: seq<Entry>, n: nat): Value { Table(Array(es, n), Others(es, n)) }

  /** What lua_rawseti stores for the array part: nil stores nothing. */
  ghost function Stored(arr: seq<Value>): seq<Entry> {
    if arr == [] then []
    else Stored(arr[..|arr| - 1]) + if arr[|arr| - 1] == Nil then [] else [Entry(Int(|arr|), arr[|arr| - 1])]
  }

  /** The entries of the table unpack_table builds. */
  ghost function Built(v: Value): seq<Entry>
    requires v.Table?
  {
    Stored(v.arr) + v.hash
  }

  /** The selection of wb_table_hash. */
  method SelectOthers(es: seq<Entry>, n: nat) returns (others: seq<Entry>)
    ensures others == Others(es, n)
  {
    others := [];
    for i := 0 to |es|
      invariant others == Others(es[..i], n)
    {
      assert es[..i + 1][..i] == es[..i];
      if es[i].key.Int? && es[i].key.i > 0 && es[i].key.i <= n {
        continue;
      }
      others := others + [es[i]];
    }
    assert es[..|es|] == es;
  }

  ghost function OneMore(es: seq<Entry>, n: nat): seq<Entry> {
    if Get(es, n) == Nil then [] else [Entry(Int(n), Get(es, n))]
  }

  lemma {:induction false} GetNone(es: seq<Entry>, i: int)
    requires forall k :: 0 <= k < |es| ==> es[k].key != Int(i)
    ensures Get(es, i) == Nil
  {
    if es != [] {
      GetNone(es[..|es| - 1], i);
    }
  }

  lemma LastStep(front: seq<Entry>, e: Entry, n: nat)
    requires n > 0 && e.key != Nil && e.val != Nil && (e.key == Int(n) ==> Get(front, n) == Nil)
    ensures Others(front + [e], n) == Others(front, n) + if InArray(e.key, n) then [] else [e]
    ensures Others(front + [e], n - 1) == Others(front, n - 1) + if InArray(e.key, n - 1) then [] else [e]
    ensures OneMore(front + [e], n) == if e.key == Int(n) then [e] else OneMore(front, n)
    ensures e.key == Int(n) ==> OneMore(front, n) == []
  {
    assert (front + [e])[..|front|] == front;
  }

  /** A longer array part takes at most one entry away from the others. */
  lemma {:induction false} OthersStep(es: seq<Entry>, n: nat)
    requires Raw(es) && n > 0
    ensures multiset(Others(es, n - 1)) == multiset(OneMore(es, n) + Others(es, n))
  {
    hide OneMore, Others, Get;
    if es == [] {
      NoEntries(n);
    } else {
      var front, e := es[..|es| - 1], es[|es| - 1];
      assert es == front + [e];
      OthersStep(front, n);
      if e.key == Int(n) {
        GetNone(front, n);
      }
      LastStep(front, e, n);
      Moved(Others(front, n - 1), OneMore(front, n), Others(front, n), e);
    }
  }

  lemma NoEntries(n: nat)
    ensures OneMore([], n) == [] && forall k: nat :: Others([], k) == []
  {
  }

  lemma Moved(a: seq<Entry>, b: seq<Entry>, c: seq<Entry>, e: Entry)
    requires multiset(a) == multiset(b + c)
    ensures multiset(a + [e]) == multiset(b + (c + [e])) && (b == [] ==> multiset(a + [e]) == multiset([e] + c))
    ensures multiset(a + []) == multiset(b + (c + []))
  {
    assert b + (c + [e]) == (b + c) + [e];
    assert a + [] == a && c + [] == c;
  }

  lemma {:induction false} Split(es: seq<Entry>, n: nat)
    requires Raw(es)
    ensures multiset(Stored(Array(es, n))) + multiset(Others(es, n)) == multiset(es)
  {
    if n == 0 {
      NoArray(es);
    } else {
      Split(es, n - 1);
      OthersStep(es, n);
      StoredStep(es, n);
      assert multiset(Stored(Array(es, n))) == multiset(Stored(Array(es, n - 1))) + multiset(OneMore(es, n));
    }
  }

  lemma StoredStep(es: seq<Entry>, n: nat)
    requires n > 0
    ensures Stored(Array(es, n)) == Stored(Array(es, n - 1)) + OneMore(es, n)
  {
    assert Array(es, n)[..n - 1] == Array(es, n - 1);
  }

  lemma {:induction false} NoArray(es: seq<Entry>)
    ensures Others(es, 0) == es && Stored(Array(es, 0)) == []
  {
    if es != [] {
      NoArray(es[..|es| - 1]);
    }
  }

  /** A table, cut at any border, packed and unpacked, has the same entries as before. */
  lemma TableComesBack(es: seq<Entry>, n: nat, more: Text)
    requires Raw(es) && Proper(TableOf(es, n))
    ensures var r := Decode(Encode(TableOf(es, n)) + more);
      r.Got? && r.v.Table? && r.rest == more && multiset(Built(r.v)) == multiset(es)
  {
    ReadsBack(TableOf(es, n), more);
    Split(es, n);
  }
}
