/** Turning the numbers of a parsed document into the kinds that a precision tree asks for by key path. */
module Remap {
  import opened Wrappers

  /** A document; numbers keep their text. Parsed documents have `Lossless` numbers only. */
  datatype Json =
    | Null
    | Bool(b: bool)
    | Str(s: string)
    | Lossless(text: string)
    | BigNumber(text: string)
    | Number(text: string)
    | Arr(items: seq<Json>)
    | Obj(entries: seq<(string, Json)>)

  /** `Unset` is a key that a tree does not mention. */
  datatype Precision = AsBigNumber | AsLossless | AsNumber | Unset | Tree(keys: map<string, Precision>)

  function Child(p: Precision, key: string): Precision
    requires p.Tree?
  {
    if key in p.keys then p.keys[key] else Unset
  }

  /** `reviveLosslessAs`: whatever is not one of the two exact kinds is a plain number. */
  function ReviveNumber(text: string, p: Precision): Json {
    match p
    case AsLossless => Lossless(text)
    case AsBigNumber => BigNumber(text)
    case _ => Number(text)
  }

  function Revived(o: Json, p: Precision): Json {
    match o
    case Lossless(text) => ReviveNumber(text, p)
    case Arr(items) => Arr(seq(|items|, i requires 0 <= i < |items| => Revived(items[i], p)))
    case Obj(entries) => Obj(seq(|entries|, i requires 0 <= i < |entries| => (entries[i].0, Revived(entries[i].1, p))))
    case _ => o
  }

  /** A string that is not empty has its characters assigned under a tree, which is an exception. */
  predicate Throws(o: Json, p: Precision) {
    p.Tree? &&
    match o
    case Str(s) => s != ""
    case Arr(items) => exists i :: 0 <= i < |items| && Throws(items[i], p)
    case Obj(entries) => exists i :: 0 <= i < |entries| && Throws(entries[i].1, Child(p, entries[i].0))
    case _ => false
  }

  function Remapped(o: Json, p: Precision): Json {
    if !p.Tree? then Revived(o, p)
    else
      match o
      case Lossless(text) => ReviveNumber(text, Unset)
      case Arr(items) => Arr(seq(|items|, i requires 0 <= i < |items| => Remapped(items[i], p)))
      case Obj(entries) =>
        Obj(seq(|entries|, i requires 0 <= i < |entries| =>
          (entries[i].0, Remapped(entries[i].1, Child(p, entries[i].0)))))
      case _ => o
  }

  /** Arrays are made anew; the entries of an object are overwritten one by one. */
  method ReviveAs(o: Json, p: Precision) returns (r: Json)
    ensures r == Revived(o, p)
    decreases o
  {
    match o
    case Lossless(text) => r := ReviveNumber(text, p);
    case Arr(items) =>
      var revived: seq<Json> := [];
      for i := 0 to |items|
        invariant |revived| == i && forall k :: 0 <= k < i ==> revived[k] == Revived(items[k], p)
      {
        var v := ReviveAs(items[i], p);
        revived := revived + [v];
      }
      r := Arr(revived);
    case Obj(entries) =>
      var updated := entries;
      for i := 0 to |entries|
        invariant |updated| == |entries| && updated[i..] == entries[i..]
        invariant forall k :: 0 <= k < i ==> updated[k] == (entries[k].0, Revived(entries[k].1, p))
      {
        var v := ReviveAs(entries[i].1, p);
        updated := updated[i := (entries[i].0, v)];
      }
      r := Obj(updated);
    case _ => r := o;
  }

  method DeepRemap(o: Json, p: Precision) returns (r: Option<Json>)
    ensures r == if Throws(o, p) then None else Some(Remapped(o, p))
    decreases o
  {
    if o.Null? {
      return Some(o);
    }
    if !p.Tree? {
      var v := ReviveAs(o, p);
      return Some(v);
    }
    match o
    case Arr(items) =>
      var remapped: seq<Json> := [];
      for i := 0 to |items|
        invariant |remapped| == i && forall k :: 0 <= k < i ==>
          !Throws(items[k], p) && remapped[k] == Remapped(items[k], p)
      {
        var v := DeepRemap(items[i], p);
        if v.None? {
          assert Throws(items[i], p);
          return None;
        }
        remapped := remapped + [v.value];
      }
      assert Arr(remapped) == Remapped(o, p);
      r := Some(Arr(remapped));
    case Lossless(text) => r := Some(ReviveNumber(text, Unset));
    case Obj(entries) =>
      var updated := entries;
      for i := 0 to |entries|
        invariant |updated| == |entries| && updated[i..] == entries[i..]
        invariant forall k :: 0 <= k < i ==>
          !Throws(entries[k].1, Child(p, entries[k].0))
            && updated[k] == (entries[k].0, Remapped(entries[k].1, Child(p, entries[k].0)))
      {
        var v := DeepRemap(entries[i].1, Child(p, entries[i].0));
        if v.None? {
          assert Throws(entries[i].1, Child(p, entries[i].0));
          return None;
        }
        updated := updated[i := (entries[i].0, v.value)];
      }
      assert Obj(updated) == Remapped(o, p);
      r := Some(Obj(updated));
    case Str(s) => r := if s == "" then Some(o) else None;
    case _ => r := Some(o);
  }

  // The specification, by paths.

  datatype Step = Index(i: nat) | Field(i: nat, key: string)

  /** What is at a path. */
  function At(o: Json, path: seq<Step>): Option<Json>
    decreases |path|
  {
    if path == [] then Some(o)
    else
      match (o, path[0])
      case (Arr(items), Index(i)) => if i < |items| then At(items[i], path[1..]) else None
      case (Obj(entries), Field(i, key)) =>
        if i < |entries| && entries[i].0 == key then At(entries[i].1, path[1..]) else None
      case _ => None
  }

  /** What the tree says for a path: array positions are skipped, and what is not a tree holds for everything below. */
  function Governing(p: Precision, path: seq<Step>): Precision
    decreases |path|
  {
    if path == [] || !p.Tree? then p
    else if path[0].Index? then Governing(p, path[1..])
    else Governing(Child(p, path[0].key), path[1..])
  }

  /** The same at one node: a number is of the kind asked for, an array is as long, an object has the same keys in the
      same order, and everything else is unchanged. */
  ghost predicate NodeFits(a: Json, b: Json, p: Precision) {
    match a
    case Lossless(text) =>
      || (b == BigNumber(text) && p == AsBigNumber)
      || (b == a && p == AsLossless)
      || (b == Number(text) && p != AsBigNumber && p != AsLossless)
    case Arr(items) => b.Arr? && |b.items| == |items|
    case Obj(entries) =>
      b.Obj? && |b.entries| == |entries| && forall i :: 0 <= i < |entries| ==> b.entries[i].0 == entries[i].0
    case _ => b == a
  }

  lemma {:induction false} RevivedFits(o: Json, p: Precision, path: seq<Step>)
    requires !p.Tree?
    ensures At(Revived(o, p), path).Some? <==> At(o, path).Some?
    ensures At(o, path).Some? ==> NodeFits(At(o, path).value, At(Revived(o, p), path).value, p)
    decreases |path|
  {
    if path != [] {
      match (o, path[0])
      case (Arr(items), Index(i)) => if i < |items| { RevivedFits(items[i], p, path[1..]); }
      case (Obj(entries), Field(i, _)) => if i < |entries| { RevivedFits(entries[i].1, p, path[1..]); }
      case _ =>
    }
  }

  lemma {:induction false} GoverningStops(p: Precision, path: seq<Step>)
    requires !p.Tree?
    ensures Governing(p, path) == p
  {
  }

  /** The remapped document fits the original at every path, under what the tree says for that path. */
  lemma {:induction false} RemapFits(o: Json, p: Precision, path: seq<Step>)
    ensures At(Remapped(o, p), path).Some? <==> At(o, path).Some?
    ensures At(o, path).Some? ==> NodeFits(At(o, path).value, At(Remapped(o, p), path).value, Governing(p, path))
    decreases |path|
  {
    if !p.Tree? {
      RevivedFits(o, p, path);
      GoverningStops(p, path);
    } else if path != [] {
      match (o, path[0])
      case (Arr(items), Index(i)) => if i < |items| { RemapFits(items[i], p, path[1..]); }
      case (Obj(entries), Field(i, key)) =>
        if i < |entries| && entries[i].0 == key { RemapFits(entries[i].1, Child(p, key), path[1..]); }
      case _ =>
    }
  }

  /** Nothing else fits: a document that agrees at every path is the remapped one. */
  lemma {:induction false} FitIsUnique(o: Json, p: Precision, b: Json)
    requires forall path :: At(o, path).Some? ==>
      At(b, path).Some? && NodeFits(At(o, path).value, At(b, path).value, Governing(p, path))
    ensures b == Remapped(o, p)
    decreases o
  {
    assert At(o, []).Some? && Governing(p, []) == p;
    assert NodeFits(o, b, p);
    match o
    case Arr(items) =>
      forall i | 0 <= i < |items| ensures b.items[i] == Remapped(items[i], p) {
        FitsBelow(o, p, b, Index(i), items[i], b.items[i], p);
        FitIsUnique(items[i], p, b.items[i]);
      }
    case Obj(entries) =>
      forall i | 0 <= i < |entries|
        ensures b.entries[i] == (entries[i].0, Remapped(entries[i].1, Below(p, entries[i].0)))
      {
        FitsBelow(o, p, b, Field(i, entries[i].0), entries[i].1, b.entries[i].1, Below(p, entries[i].0));
        FitIsUnique(entries[i].1, Below(p, entries[i].0), b.entries[i].1);
      }
    case _ =>
  }

  function Below(p: Precision, key: string): Precision {
    if p.Tree? then Child(p, key) else p
  }

  lemma FitsBelow(o: Json, p: Precision, b: Json, step: Step, o': Json, b': Json, p': Precision)
    requires forall path :: At(o, path).Some? ==>
      At(b, path).Some? && NodeFits(At(o, path).value, At(b, path).value, Governing(p, path))
    requires forall path :: At(o, [step] + path) == At(o', path) && At(b, [step] + path) == At(b', path)
    requires forall path :: Governing(p, [step] + path) == Governing(p', path)
    ensures forall path :: At(o', path).Some? ==>
      At(b', path).Some? && NodeFits(At(o', path).value, At(b', path).value, Governing(p', path))
  {
    forall path | At(o', path).Some?
      ensures At(b', path).Some? && NodeFits(At(o', path).value, At(b', path).value, Governing(p', path))
    {
      assert At(o, [step] + path).Some?;
    }
  }

  /** A string that is not empty, where the tree still has a tree. */
  ghost predicate TextUnderTree(o: Json, p: Precision, path: seq<Step>) {
    At(o, path).Some? && At(o, path).value.Str? && At(o, path).value.s != "" && Governing(p, path).Tree?
  }

  lemma {:induction false} ThrowsSomewhere(o: Json, p: Precision) returns (path: seq<Step>)
    requires Throws(o, p)
    ensures TextUnderTree(o, p, path)
    decreases o
  {
    match o
    case Str(_) => path := [];
    case Arr(items) =>
      var i :| 0 <= i < |items| && Throws(items[i], p);
      var rest := ThrowsSomewhere(items[i], p);
      path := [Index(i)] + rest;
      assert path[1..] == rest;
    case Obj(entries) =>
      var i :| 0 <= i < |entries| && Throws(entries[i].1, Child(p, entries[i].0));
      var rest := ThrowsSomewhere(entries[i].1, Child(p, entries[i].0));
      path := [Field(i, entries[i].0)] + rest;
      assert path[1..] == rest;
  }

  lemma {:induction false} TextThrows(o: Json, p: Precision, path: seq<Step>)
    requires TextUnderTree(o, p, path)
    ensures Throws(o, p)
    decreases |path|
  {
    if path != [] {
      if o.Arr? {
        TextThrows(o.items[path[0].i], p, path[1..]);
      } else {
        TextThrows(o.entries[path[0].i].1, Child(p, path[0].key), path[1..]);
      }
    }
  }

  /** Remapping throws exactly when there is such a string. */
  lemma ThrowsIff(o: Json, p: Precision)
    ensures Throws(o, p) <==> exists path :: TextUnderTree(o, p, path)
  {
    if Throws(o, p) {
      var path := ThrowsSomewhere(o, p);
    }
    if path :| TextUnderTree(o, p, path) {
      TextThrows(o, p, path);
    }
  }
}
