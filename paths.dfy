// Reading and writing a value at a nested property path (index.js:139-151).
// Reading follows `depth.reduce((o, p) => o[p], object)`, which throws as soon
// as it indexes into undefined or null; writing follows the reduce that stores
// `o[p] = last ? value : o[p] || {}` step by step, creating an empty object
// wherever the path meets a falsy value.
module Paths {
  import opened Wrappers
  import opened Numerals
  import opened JsValues

  /** `getValueAtPath(path, v)`; `None` where JavaScript throws. */
  function Get(v: Value, path: Path): Option<Value>
    decreases |path|
  {
    if |path| == 0 then Some(v)
    else if IsNullish(v) then None
    else Get(Prop(v, path[0]), path[1..])
  }

  /** The value at `path`, reading undefined where JavaScript throws. */
  function GetOr(v: Value, path: Path): Value
  {
    Get(v, path).GetOr(Undefined)
  }

  /** `o[p] || {}`. */
  function Fill(v: Value): Value
  {
    if Truthy(v) then v else Obj(map[])
  }

  /** An object literal with `k` set: in place if present, else appended. */
  function RecPut(entries: seq<(string, Value)>, k: string, x: Value): (r: seq<(string, Value)>)
    ensures LookupIn(r, k) == x
    decreases |entries|
  {
    if |entries| == 0 then [(k, x)]
    else if entries[0].0 == k then [(k, x)] + entries[1..]
    else [entries[0]] + RecPut(entries[1..], k, x)
  }

  lemma {:induction false} RecPutKeepsOthers(entries: seq<(string, Value)>, k: string, x: Value, other: string)
    requires other != k
    ensures LookupIn(RecPut(entries, k, x), other) == LookupIn(entries, other)
    decreases |entries|
  {
    if |entries| > 0 && entries[0].0 != k {
      RecPutKeepsOthers(entries[1..], k, x, other);
    }
  }

  /** `o[k] = x` on one value. Arrays take index keys only; a write into a
    * primitive or into a contract instance is not modelled and changes nothing. */
  function Put(o: Value, k: string, x: Value): Value
  {
    match o
    case Obj(fields) => Obj(fields[k := x])
    case Rec(entries) => Rec(RecPut(entries, k, x))
    case Arr(elems) =>
      (match ParseIndex(k)
       case Some(i) =>
         if i < |elems| then Arr(elems[i := x])
         else Arr(elems + seq(i - |elems|, _ => Undefined) + [x])
       case None => o)
    case _ => o
  }

  /** Setting a key that is not an array index leaves every other key of
    * the value as it was. */
  lemma PutKeepsOthers(o: Value, k: string, x: Value, other: string)
    requires other != k && ParseIndex(k).None?
    ensures Prop(Put(o, k, x), other) == Prop(o, other)
  {
    if o.Rec? {
      RecPutKeepsOthers(o.entries, k, x, other);
    }
  }

  /** `setValueAtPath(path, x, o)`, returning the updated `o`. */
  function Set(o: Value, path: Path, x: Value): Value
    decreases |path|
  {
    if |path| == 0 then o
    else if |path| == 1 then Put(o, path[0], x)
    else Put(o, path[0], Set(Fill(Prop(o, path[0])), path[1..], x))
  }

  /** `setValueAtPath([name] + path, x)` on an object whose property `name`
    * currently holds `root`: the new value of that property. */
  function SetUnder(root: Value, path: Path, x: Value): Value
  {
    if |path| == 0 then x else Set(Fill(root), path, x)
  }

  /** A path into a tree of plain objects, possibly missing some of its
    * intermediate objects (undefined or null where an object belongs). */
  predicate Writable(o: Value, path: Path)
    decreases |path|
  {
    if |path| == 0 then true
    else
      o.Obj? &&
      (|path| == 1 ||
       var c := Prop(o, path[0]);
       (IsNullish(c) || c.Obj?) && Writable(Fill(c), path[1..]))
  }

  lemma {:induction false} EmptyObjectWritable(path: Path)
    ensures Writable(Obj(map[]), path)
    decreases |path|
  {
    if |path| > 1 {
      EmptyObjectWritable(path[1..]);
    }
  }

  /** Reading a path just written gives the written value, whatever
    * intermediate objects the write had to create. */
  lemma {:induction false} GetSet(o: Value, path: Path, x: Value)
    requires |path| > 0 && Writable(o, path)
    ensures Get(Set(o, path, x), path) == Some(x)
    decreases |path|
  {
    if |path| > 1 {
      var c := Fill(Prop(o, path[0]));
      GetSet(c, path[1..], x);
    }
  }

  /** Writing keeps a tree of plain objects a plain object. */
  lemma SetKeepsObject(o: Value, path: Path, x: Value)
    requires o.Obj?
    ensures Set(o, path, x).Obj?
  {
  }

  /** Writing below one key of a plain object leaves its other keys alone. */
  lemma SetOtherKey(o: Value, p: Path, x: Value, k: string)
    requires o.Obj? && |p| >= 1 && k != p[0]
    ensures Set(o, p, x).Obj? && Prop(Set(o, p, x), k) == Prop(o, k)
  {
  }

  /** The path `q` leaves `p` at position `j`. */
  predicate DivergeAt(p: Path, q: Path, j: nat)
  {
    j < |p| && j < |q| && p[..j] == q[..j] && p[j] != q[j]
  }

  /** A write at `p` leaves alone every value readable at a path that branches
    * off `p`: sibling keys and everything below them keep their values. */
  lemma {:induction false} SetKeepsSiblings(o: Value, p: Path, q: Path, j: nat, x: Value)
    requires Writable(o, p) && DivergeAt(p, q, j) && Get(o, q).Some?
    ensures Get(Set(o, p, x), q) == Get(o, q)
    decreases j
  {
    var o' := Set(o, p, x);
    assert o.Obj?;
    if j == 0 {
      if |p| == 1 {
        assert o' == Obj(o.fields[p[0] := x]);
      } else {
        assert o' == Obj(o.fields[p[0] := Set(Fill(Prop(o, p[0])), p[1..], x)]);
      }
      assert Prop(o', q[0]) == Prop(o, q[0]);
    } else {
      assert p[0] == q[0] by { assert p[..j][0] == q[..j][0]; }
      var c := Prop(o, p[0]);
      assert p[1..][..j - 1] == p[..j][1..] && q[1..][..j - 1] == q[..j][1..];
      SetKeepsSiblings(Fill(c), p[1..], q[1..], j - 1, x);
      assert Prop(o', p[0]) == Set(Fill(c), p[1..], x);
    }
  }

  /** Writing element `i` of an array: that position holds the value, earlier
    * positions keep theirs, and a gap before it reads as undefined. */
  lemma PutIndex(elems: seq<Value>, i: nat, x: Value)
    ensures var r := Put(Arr(elems), NatStr(i), x);
      r.Arr? && |r.elems| == (if i < |elems| then |elems| else i + 1) &&
      r.elems[i] == x &&
      (forall j :: 0 <= j < |elems| && j != i ==> r.elems[j] == elems[j]) &&
      (forall j :: |elems| <= j < i ==> r.elems[j] == Undefined)
  {
    ParseNatStr(i);
  }
  /** A path that is writable is writable up to its parent. */
  lemma {:induction false} WritableParent(o: Value, p: Path, k: string)
    requires |p| > 0 && Writable(o, p + [k])
    ensures Writable(o, p)
    decreases |p|
  {
    assert (p + [k])[0] == p[0];
    if |p| > 1 {
      assert (p + [k])[1..] == p[1..] + [k];
      WritableParent(Fill(Prop(o, p[0])), p[1..], k);
    }
  }

  /** After a write the written path is still writable. */
  lemma {:induction false} SetKeepsPathWritable(o: Value, p: Path, x: Value)
    requires Writable(o, p)
    ensures Writable(Set(o, p, x), p)
    decreases |p|
  {
    if |p| > 1 {
      var c := Fill(Prop(o, p[0]));
      SetKeepsPathWritable(c, p[1..], x);
      SetKeepsObject(c, p[1..], x);
      assert Prop(Set(o, p, x), p[0]) == Set(c, p[1..], x);
    }
  }

  /** After a write every path that branches off it and was writable still is. */
  lemma {:induction false} SetKeepsSiblingWritable(o: Value, p: Path, q: Path, j: nat, x: Value)
    requires Writable(o, p) && Writable(o, q) && DivergeAt(p, q, j)
    ensures Writable(Set(o, p, x), q)
    decreases j
  {
    var o' := Set(o, p, x);
    if j == 0 {
      SetOtherKey(o, p, x, q[0]);
    } else {
      assert p[0] == q[0] by { assert p[..j][0] == q[..j][0]; }
      var c := Fill(Prop(o, p[0]));
      assert p[1..][..j - 1] == p[..j][1..] && q[1..][..j - 1] == q[..j][1..];
      SetKeepsSiblingWritable(c, p[1..], q[1..], j - 1, x);
      SetKeepsObject(c, p[1..], x);
      assert Prop(o', p[0]) == Set(c, p[1..], x);
    }
  }

  /** Reading one key further down a path. */
  lemma {:induction false} GetAppend(o: Value, p: Path, k: string)
    requires Get(o, p).Some? && !IsNullish(Get(o, p).value)
    ensures Get(o, p + [k]) == Some(Prop(Get(o, p).value, k))
    decreases |p|
  {
    if |p| == 0 {
      assert p + [k] == [k];
    } else {
      assert (p + [k])[0] == p[0] && (p + [k])[1..] == p[1..] + [k];
      GetAppend(Prop(o, p[0]), p[1..], k);
    }
  }

  /** Writing one key below an existing object or array is writing the
    * updated object or array at its own path. */
  lemma {:induction false} SetAppend(o: Value, p: Path, k: string, x: Value)
    requires |p| > 0 && Writable(o, p) && Get(o, p).Some? && Truthy(Get(o, p).value)
    ensures Set(o, p + [k], x) == Set(o, p, Put(Get(o, p).value, k, x))
    decreases |p|
  {
    assert (p + [k])[0] == p[0] && (p + [k])[1..] == p[1..] + [k];
    if |p| == 1 {
      assert p[1..] + [k] == [k];
    } else {
      SetAppend(Prop(o, p[0]), p[1..], k, x);
    }
  }

  /** `path` leads through plain objects to an array. */
  predicate ArrayAt(o: Value, path: Path)
  {
    Writable(o, path) && Get(o, path).Some? && Get(o, path).value.Arr?
  }

  /** Writing element `i` of the array at `path` (`elements[index] = ...`):
    * it reads back and `path` still leads to an array. */
  lemma ArrayElementSet(o: Value, path: Path, i: nat, x: Value)
    requires |path| > 0 && ArrayAt(o, path)
    ensures ArrayAt(Set(o, path + [NatStr(i)], x), path)
    ensures Get(Set(o, path + [NatStr(i)], x), path + [NatStr(i)]) == Some(x)
  {
    var a := Get(o, path).value;
    var a' := Put(a, NatStr(i), x);
    SetAppend(o, path, NatStr(i), x);
    PutIndex(a.elems, i, x);
    GetSet(o, path, a');
    SetKeepsPathWritable(o, path, a');
    GetAppend(Set(o, path, a'), path, NatStr(i));
    ParseNatStr(i);
  }

  /** Writing element `i` of the array at `path` keeps every other element
    * the array has. */
  lemma ArrayElementKeep(o: Value, path: Path, i: nat, k: nat, x: Value)
    requires |path| > 0 && ArrayAt(o, path) && i != k
    requires Get(o, path + [NatStr(k)]) != Some(Undefined)
    ensures Get(Set(o, path + [NatStr(i)], x), path + [NatStr(k)]) == Get(o, path + [NatStr(k)])
  {
    var a := Get(o, path).value;
    var a' := Put(a, NatStr(i), x);
    SetAppend(o, path, NatStr(i), x);
    PutIndex(a.elems, i, x);
    GetSet(o, path, a');
    GetAppend(o, path, NatStr(k));
    GetAppend(Set(o, path, a'), path, NatStr(k));
    ParseNatStr(k);
  }
}
