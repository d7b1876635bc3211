/** The two carriers of an event: a Parcel, written item by item, and a pair of arrays whose sizes are
    fixed first and whose slots are then assigned by index. */
module TvParcel {
  datatype Item = Int(i: int) | Str(s: string)

  function Ints(items: seq<Item>): seq<int> {
    if items == [] then []
    else (if items[0].Int? then [items[0].i] else []) + Ints(items[1..])
  }

  function Strs(items: seq<Item>): seq<string> {
    if items == [] then []
    else (if items[0].Str? then [items[0].s] else []) + Strs(items[1..])
  }

  lemma {:induction false} ProjectionsConcat(a: seq<Item>, b: seq<Item>)
    ensures Ints(a + b) == Ints(a) + Ints(b)
    ensures Strs(a + b) == Strs(a) + Strs(b)
    decreases |a|
  {
    if a == [] {
      assert a + b == b;
    } else {
      ProjectionsConcat(a[1..], b);
      assert (a + b)[1..] == a[1..] + b && (a + b)[0] == a[0];
      Assoc(if a[0].Int? then [a[0].i] else [], Ints(a[1..]), Ints(b));
      Assoc(if a[0].Str? then [a[0].s] else [], Strs(a[1..]), Strs(b));
    }
  }

  lemma Assoc<T>(a: seq<T>, b: seq<T>, c: seq<T>)
    ensures a + b + c == a + (b + c)
  {}

  function IntItems(vs: seq<int>): (r: seq<Item>)
    ensures |r| == |vs|
  {
    seq(|vs|, i requires 0 <= i < |vs| => Int(vs[i]))
  }

  function StrItems(vs: seq<string>): (r: seq<Item>)
    ensures |r| == |vs|
  {
    seq(|vs|, i requires 0 <= i < |vs| => Str(vs[i]))
  }

  lemma {:induction false} IntItemsProject(vs: seq<int>)
    ensures Ints(IntItems(vs)) == vs && Strs(IntItems(vs)) == []
  {
    if vs != [] {
      IntItemsProject(vs[1..]);
      assert IntItems(vs)[1..] == IntItems(vs[1..]);
    }
  }

  lemma {:induction false} StrItemsProject(vs: seq<string>)
    ensures Ints(StrItems(vs)) == [] && Strs(StrItems(vs)) == vs
  {
    if vs != [] {
      StrItemsProject(vs[1..]);
      assert StrItems(vs)[1..] == StrItems(vs[1..]);
    }
  }

  /** One more element of a section that is being copied. */
  lemma NextOfSection(before: seq<Item>, ints: seq<int>, strs: seq<string>, k: nat)
    ensures k < |ints| ==>
              before + IntItems(ints[..k]) + [Int(ints[k])] == before + IntItems(ints[..k + 1])
    ensures k < |strs| ==>
              before + StrItems(strs[..k]) + [Str(strs[k])] == before + StrItems(strs[..k + 1])
  {
    if k < |ints| {
      assert IntItems(ints[..k]) + [Int(ints[k])] == IntItems(ints[..k + 1]);
    }
    if k < |strs| {
      assert StrItems(strs[..k]) + [Str(strs[k])] == StrItems(strs[..k + 1]);
    }
  }

  class Parcel {
    var items: seq<Item>

    constructor ()
      ensures items == []
    {
      items := [];
    }

    ghost function Integers(): seq<int>
      reads this
    {
      Ints(items)
    }

    method WriteInt32(v: int)
      modifies this
      ensures items == old(items) + [Int(v)]
      ensures Integers() == old(Integers()) + [v]
    {
      ProjectionsConcat(items, [Int(v)]);
      items := items + [Int(v)];
    }

    method WriteString16(v: string)
      modifies this
      ensures items == old(items) + [Str(v)]
    {
      items := items + [Str(v)];
    }

    method WriteInts(vs: seq<int>, n: nat)
      requires n <= |vs|
      modifies this
      ensures items == old(items) + IntItems(vs[..n])
    {
      for i := 0 to n
        invariant items == old(items) + IntItems(vs[..i])
      {
        WriteInt32(vs[i]);
        NextOfSection(old(items), vs, [], i);
      }
    }

    method WriteStrings(vs: seq<string>, n: nat)
      requires n <= |vs|
      modifies this
      ensures items == old(items) + StrItems(vs[..n])
    {
      for i := 0 to n
        invariant items == old(items) + StrItems(vs[..i])
      {
        WriteString16(vs[i]);
        NextOfSection(old(items), [], vs, i);
      }
    }
  }

  /** `written` lists, in order, what has been assigned so far: the n-th integer written went to slot n
      of bodyInt, the n-th string to slot n of bodyString. */
  class TvHidlParcel {
    const bodyInt: array<int>
    const bodyString: array<string>
    ghost var written: seq<Item>

    ghost predicate Valid()
      reads this, bodyInt, bodyString
    {
      && bodyInt as object != bodyString as object
      && IntCount() <= bodyInt.Length && bodyInt[..IntCount()] == Ints(written)
      && StrCount() <= bodyString.Length && bodyString[..StrCount()] == Strs(written)
    }

    ghost function IntCount(): nat
      reads this
    {
      |Ints(written)|
    }

    ghost function StrCount(): nat
      reads this
    {
      |Strs(written)|
    }

    constructor (ints: nat, strings: nat)
      ensures Valid() && written == [] && IntCount() == 0 && StrCount() == 0
      ensures bodyInt.Length == ints && bodyString.Length == strings
      ensures fresh(bodyInt) && fresh(bodyString)
    {
      bodyInt := new int[ints](_ => 0);
      bodyString := new string[strings](_ => "");
      written := [];
    }

    /** Assigns the next free slot of bodyInt: no slot is left out and none is written twice. */
    method PutInt(index: int, v: int)
      requires Valid() && index == IntCount() < bodyInt.Length
      modifies this, bodyInt
      ensures Valid() && written == old(written) + [Int(v)]
      ensures IntCount() == old(IntCount()) + 1 && StrCount() == old(StrCount())
    {
      ProjectionsConcat(written, [Int(v)]);
      bodyInt[index] := v;
      written := written + [Int(v)];
    }

    method PutString(index: int, v: string)
      requires Valid() && index == StrCount() < bodyString.Length
      modifies this, bodyString
      ensures Valid() && written == old(written) + [Str(v)]
      ensures StrCount() == old(StrCount()) + 1 && IntCount() == old(IntCount())
    {
      ProjectionsConcat(written, [Str(v)]);
      bodyString[index] := v;
      written := written + [Str(v)];
    }

    method PutInts(offset: int, vs: seq<int>, n: nat)
      requires n <= |vs|
      requires Valid() && offset == IntCount() && IntCount() + n <= bodyInt.Length
      modifies this, bodyInt
      ensures Valid() && written == old(written) + IntItems(vs[..n])
      ensures IntCount() == old(IntCount()) + n && StrCount() == old(StrCount())
    {
      hide IntCount, StrCount, Valid;
      for i := 0 to n
        invariant Valid() && written == old(written) + IntItems(vs[..i])
        invariant IntCount() == old(IntCount()) + i && StrCount() == old(StrCount())
      {
        PutInt(i + offset, vs[i]);
        NextOfSection(old(written), vs, [], i);
      }
    }

    method PutStrings(offset: int, vs: seq<string>, n: nat)
      requires n <= |vs|
      requires Valid() && offset == StrCount() && StrCount() + n <= bodyString.Length
      modifies this, bodyString
      ensures Valid() && written == old(written) + StrItems(vs[..n])
      ensures StrCount() == old(StrCount()) + n && IntCount() == old(IntCount())
    {
      hide IntCount, StrCount, Valid;
      for i := 0 to n
        invariant Valid() && written == old(written) + StrItems(vs[..i])
        invariant StrCount() == old(StrCount()) + i && IntCount() == old(IntCount())
      {
        PutString(i + offset, vs[i]);
        NextOfSection(old(written), [], vs, i);
      }
    }
  }
}
