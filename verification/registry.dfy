/**
 * The `entryPoints` state of the provider: a plain object from registration
 * id to entry point. An object's own string keys are enumerated in the order
 * they were first defined, so the registry is a sequence of id/function
 * pairs with pairwise distinct ids, in that order.
 */
module EntryPoints {
  import opened Wrappers
  import opened Annotations

  datatype Entry = Entry(id: string, fn: AnnotatedFunction)

  predicate UniqueIds(es: seq<Entry>)
  {
    forall i, j :: 0 <= i < j < |es| ==> es[i].id != es[j].id
  }

  /** An object cannot hold the same key twice. */
  type Registry = es: seq<Entry> | UniqueIds(es) witness []

  /** The position of `id` among the keys, or `|es|` when `id` is not a key. */
  function IndexOf(es: seq<Entry>, id: string): (k: nat)
    ensures k <= |es|
    ensures k < |es| ==> es[k].id == id
    ensures forall j :: 0 <= j < k ==> es[j].id != id
  {
    if es == [] then 0
    else if es[0].id == id then 0
    else 1 + IndexOf(es[1..], id)
  }

  predicate HasId(es: seq<Entry>, id: string)
  {
    IndexOf(es, id) < |es|
  }

  /** The registered ids, as a set. */
  function Ids(es: seq<Entry>): set<string>
  {
    set i | 0 <= i < |es| :: es[i].id
  }

  /** `id` is a key exactly when it is one of the registered ids. */
  lemma HasIdIffInIds(es: seq<Entry>, id: string)
    ensures HasId(es, id) <==> id in Ids(es)
  {
    if id in Ids(es) {
      var i :| 0 <= i < |es| && es[i].id == id;
      assert IndexOf(es, id) <= i;
    }
  }

  /** The registry read as a dictionary from id to entry point. */
  function AsMap(r: Registry): map<string, AnnotatedFunction>
  {
    if r == [] then map[] else AsMap(r[1..])[r[0].id := r[0].fn]
  }

  /** The dictionary view has exactly the registered ids as keys, each with its own entry point. */
  lemma {:induction false} AsMapContents(r: Registry)
    ensures AsMap(r).Keys == Ids(r)
    ensures forall i :: 0 <= i < |r| ==> AsMap(r)[r[i].id] == r[i].fn
  {
    if r != [] {
      var tail: Registry := r[1..];
      AsMapContents(tail);
      assert Ids(r) == Ids(tail) + {r[0].id} by {
        forall k | k in Ids(r) ensures k in Ids(tail) + {r[0].id} {
          var i :| 0 <= i < |r| && r[i].id == k;
          if i > 0 { assert tail[i - 1] == r[i]; }
        }
        forall k | k in Ids(tail) ensures k in Ids(r) {
          var i :| 0 <= i < |tail| && tail[i].id == k;
          assert r[i + 1] == tail[i];
        }
      }
      forall i | 0 < i < |r| ensures AsMap(r)[r[i].id] == r[i].fn {
        assert tail[i - 1] == r[i];
      }
    }
  }

  /** `Object.values(entryPoints)`: the values in key order. */
  function Values(r: Registry): (vs: seq<AnnotatedFunction>)
    ensures |vs| == |r|
    ensures forall i :: 0 <= i < |r| ==> vs[i] == r[i].fn
  {
    seq(|r|, i requires 0 <= i < |r| => r[i].fn)
  }

  /**
   * `{ ...prevPoints, [id]: entryPoint }`: the spread copies every key in
   * order, then the computed key either overwrites an existing key in place
   * or defines a new one at the end.
   */
  function Put(r: Registry, id: string, f: AnnotatedFunction): (r': Registry)
    ensures HasId(r, id) ==> r' == r[IndexOf(r, id) := Entry(id, f)]
    ensures !HasId(r, id) ==> r' == r + [Entry(id, f)]
  {
    if r == [] then [Entry(id, f)]
    else if r[0].id == id then [Entry(id, f)] + r[1..]
    else
      var tail: Registry := r[1..];
      var rest := Put(tail, id, f);
      assert forall i :: 0 <= i < |rest| ==> rest[i].id != r[0].id by {
        forall i | 0 <= i < |rest| ensures rest[i].id != r[0].id {
          if i < |tail| { assert tail[i] == r[i + 1]; }
        }
      }
      [r[0]] + rest
  }

  /** `delete newPoints[id]` on a copy: the key goes, every other key keeps its value and its place. */
  function Remove(r: Registry, id: string): (r': Registry)
    ensures !HasId(r', id)
    ensures !HasId(r, id) ==> r' == r
    ensures HasId(r, id) ==> |r'| == |r| - 1
    ensures HasId(r, id) ==> forall i :: 0 <= i < |r'| ==> r'[i] == r[if i < IndexOf(r, id) then i else i + 1]
  {
    if r == [] then []
    else if r[0].id == id then
      RemoveHead(r, id);
      r[1..]
    else
      var rest := Remove(r[1..], id);
      RemoveCons(r, id, rest);
      [r[0]] + rest
  }

  /** Removing the id of the first pair leaves the rest of the registry. */
  lemma RemoveHead(r: Registry, id: string)
    requires r != [] && r[0].id == id
    ensures UniqueIds(r[1..]) && !HasId(r[1..], id)
    ensures HasId(r, id) && IndexOf(r, id) == 0
  {
    var tail: Registry := r[1..];
    assert forall i :: 0 <= i < |tail| ==> tail[i] == r[i + 1];
  }

  /** The first pair's id is not among what removal left of the rest of the registry. */
  lemma RemoveConsUnique(r: Registry, id: string, rest: seq<Entry>)
    requires r != [] && r[0].id != id
    requires UniqueIds(rest) && !HasId(rest, id)
    requires !HasId(r[1..], id) ==> rest == r[1..]
    requires HasId(r[1..], id) ==> |rest| == |r| - 2
    requires HasId(r[1..], id) ==>
      forall i :: 0 <= i < |rest| ==> rest[i] == r[1..][if i < IndexOf(r[1..], id) then i else i + 1]
    ensures UniqueIds([r[0]] + rest)
    ensures !HasId([r[0]] + rest, id)
  {
    var tail := r[1..];
    var out := [r[0]] + rest;
    forall i | 0 <= i < |rest| ensures rest[i].id != r[0].id {
      if HasId(tail, id) {
        var j := if i < IndexOf(tail, id) then i else i + 1;
        assert rest[i] == tail[j] == r[j + 1];
      } else {
        assert rest[i] == r[i + 1];
      }
    }
    assert out[1..] == rest;
    assert IndexOf(out, id) == 1 + IndexOf(rest, id);
  }

  /** Putting the first pair back in front of what removal left of the rest of the registry. */
  lemma RemoveCons(r: Registry, id: string, rest: seq<Entry>)
    requires r != [] && r[0].id != id
    requires UniqueIds(rest) && !HasId(rest, id)
    requires !HasId(r[1..], id) ==> rest == r[1..]
    requires HasId(r[1..], id) ==> |rest| == |r| - 2
    requires HasId(r[1..], id) ==>
      forall i :: 0 <= i < |rest| ==> rest[i] == r[1..][if i < IndexOf(r[1..], id) then i else i + 1]
    ensures UniqueIds([r[0]] + rest)
    ensures !HasId([r[0]] + rest, id)
    ensures !HasId(r, id) ==> [r[0]] + rest == r
    ensures HasId(r, id) ==> |[r[0]] + rest| == |r| - 1
    ensures HasId(r, id) ==>
      forall i :: 0 <= i < |r| - 1 ==> ([r[0]] + rest)[i] == r[if i < IndexOf(r, id) then i else i + 1]
  {
    RemoveConsUnique(r, id, rest);
    assert IndexOf(r, id) == 1 + IndexOf(r[1..], id);
  }

  // Laws of the two updates, read through the dictionary view and the key order.

  /** setEntryPoint is a dictionary update: `id` now maps to `f`, every other id keeps its value. */
  lemma {:induction false} PutIsMapUpdate(r: Registry, id: string, f: AnnotatedFunction)
    ensures AsMap(Put(r, id, f)) == AsMap(r)[id := f]
  {
    if r == [] {
    } else if r[0].id == id {
      var tail: Registry := r[1..];
      assert ([Entry(id, f)] + tail)[1..] == tail;
    } else {
      var tail: Registry := r[1..];
      var rest := Put(tail, id, f);
      PutIsMapUpdate(tail, id, f);
      assert ([r[0]] + rest)[1..] == rest;
      calc {
        AsMap(Put(r, id, f));
        AsMap([r[0]] + rest);
        AsMap(rest)[r[0].id := r[0].fn];
        AsMap(tail)[id := f][r[0].id := r[0].fn];
        AsMap(tail)[r[0].id := r[0].fn][id := f];
        AsMap(r)[id := f];
      }
    }
  }

  /** Two dictionaries with the same keys and the same value at each key are equal. */
  lemma MapsAgree(m: map<string, AnnotatedFunction>, m': map<string, AnnotatedFunction>)
    requires forall k :: k in m <==> k in m'
    requires forall k :: k in m ==> m[k] == m'[k]
    ensures m == m'
  {
  }

  /** removeEntryPoint takes exactly `id` out of the registered ids. */
  lemma RemoveIds(r: Registry, id: string)
    ensures Ids(Remove(r, id)) == Ids(r) - {id}
  {
    var r' := Remove(r, id);
    if HasId(r, id) {
      var x := IndexOf(r, id);
      HasIdIffInIds(r', id);
      forall k | k in Ids(r') ensures k in Ids(r) {
        var j :| 0 <= j < |r'| && r'[j].id == k;
        RemoveKeepsOthers(r, id, j);
      }
      forall k | k in Ids(r) && k != id ensures k in Ids(r') {
        var j :| 0 <= j < |r| && r[j].id == k;
        if j < x { assert r'[j] == r[j]; } else { assert r'[j - 1] == r[j]; }
      }
    }
  }

  /** removeEntryPoint is a dictionary deletion: `id` is gone, every other id keeps its value. */
  lemma RemoveIsMapDelete(r: Registry, id: string)
    ensures AsMap(Remove(r, id)) == AsMap(r) - {id}
  {
    var r' := Remove(r, id);
    if HasId(r, id) {
      var m, m' := AsMap(r'), AsMap(r) - {id};
      var x := IndexOf(r, id);
      AsMapContents(r);
      AsMapContents(r');
      RemoveIds(r, id);
      forall k | k in m ensures m[k] == m'[k] {
        var j :| 0 <= j < |r'| && r'[j].id == k;
        assert r'[j] == r[if j < x then j else j + 1];
      }
      MapsAgree(m, m');
    }
  }

  /** Every entry left after a removal is an entry of the registry with another id. */
  lemma RemoveKeepsOthers(r: Registry, id: string, k: nat)
    requires k < |Remove(r, id)|
    ensures exists j :: 0 <= j < |r| && r[j] == Remove(r, id)[k] && r[j].id != id
  {
    var r' := Remove(r, id);
    if HasId(r, id) {
      var j := if k < IndexOf(r, id) then k else k + 1;
      assert r'[k] == r[j] && r[j].id != id;
    } else {
      assert r'[k] == r[k];
    }
  }

  /** Calling removeEntryPoint twice with the same id is the same as calling it once. */
  lemma RemoveIdempotent(r: Registry, id: string)
    ensures Remove(Remove(r, id), id) == Remove(r, id)
  {
  }

  /** A second setEntryPoint for the same id replaces the first one's value and keeps its place. */
  lemma PutOverwrites(r: Registry, id: string, f: AnnotatedFunction, g: AnnotatedFunction)
    ensures Put(Put(r, id, f), id, g) == Put(r, id, g)
  {
    var r1 := Put(r, id, f);
    assert HasId(r1, id) by {
      if HasId(r, id) {
        var k :| 0 <= k < |r| && r[k].id == id;
        assert r1[k].id == id;
      } else {
        assert r1[|r|].id == id;
      }
    }
  }

  /** Registering a new id and removing it again gives back the registry it started from. */
  lemma RemoveUndoesNewPut(r: Registry, id: string, f: AnnotatedFunction)
    requires !HasId(r, id)
    ensures Remove(Put(r, id, f), id) == r
  {
    var r1 := Put(r, id, f);
    assert r1[|r|].id == id;
    assert r1[..|r|] == r;
  }

  /** The value snapshot after setEntryPoint: replaced in place for a known id, appended for a new one. */
  lemma PutValues(r: Registry, id: string, f: AnnotatedFunction)
    ensures !HasId(r, id) ==> Values(Put(r, id, f)) == Values(r) + [f]
    ensures forall k :: 0 <= k < |r| && r[k].id == id ==> Values(Put(r, id, f)) == Values(r)[k := f]
  {
  }

  // Any sequence of updates: every id ends with its most recent value, or absent.

  /** One call of setEntryPoint or removeEntryPoint; React applies queued updaters in call order. */
  datatype Update = SetEntryPoint(id: string, f: AnnotatedFunction) | RemoveEntryPoint(id: string)

  function Apply(r: Registry, u: Update): Registry
  {
    match u
    case SetEntryPoint(id, f) => Put(r, id, f)
    case RemoveEntryPoint(id) => Remove(r, id)
  }

  function ApplyAll(r: Registry, us: seq<Update>): Registry
    decreases |us|
  {
    if us == [] then r else ApplyAll(Apply(r, us[0]), us[1..])
  }

  /** `entryPoints[id]`, or None when `id` is not a key. */
  function Lookup(r: Registry, id: string): Option<AnnotatedFunction>
  {
    if id in AsMap(r) then Some(AsMap(r)[id]) else None
  }

  /**
   * Reference definition: scanning the updates from the most recent back,
   * the first one that names `id` decides; `before` when none names it.
   */
  function LastWritten(before: Option<AnnotatedFunction>, us: seq<Update>, id: string): Option<AnnotatedFunction>
  {
    if us == [] then before
    else
      var u := us[|us| - 1];
      if u.id != id then LastWritten(before, us[..|us| - 1], id)
      else if u.SetEntryPoint? then Some(u.f)
      else None
  }

  /** One update as seen from a single id. */
  lemma LookupAfterApply(r: Registry, u: Update, id: string)
    ensures Lookup(Apply(r, u), id) == LastWritten(Lookup(r, id), [u], id)
  {
    assert [u][..0] == [];
    match u
    case SetEntryPoint(i, f) => PutIsMapUpdate(r, i, f);
    case RemoveEntryPoint(i) => RemoveIsMapDelete(r, i);
  }

  /** Scanning `[u] + us` back from the end is scanning `us` from what `u` left. */
  lemma {:induction false} LastWrittenFront(before: Option<AnnotatedFunction>, u: Update, us: seq<Update>, id: string)
    ensures LastWritten(before, [u] + us, id) == LastWritten(LastWritten(before, [u], id), us, id)
    decreases |us|
  {
    if us != [] {
      var init := us[..|us| - 1];
      assert ([u] + us)[..|us|] == [u] + init;
      LastWrittenFront(before, u, init, id);
    }
  }

  /**
   * After any sequence of setEntryPoint and removeEntryPoint calls, each id
   * holds the value of the most recent call naming it, and is absent when
   * that call was a removal.
   */
  lemma {:induction false} ApplyAllKeepsLastWrite(r: Registry, us: seq<Update>, id: string)
    ensures Lookup(ApplyAll(r, us), id) == LastWritten(Lookup(r, id), us, id)
    decreases |us|
  {
    if us != [] {
      var r1 := Apply(r, us[0]);
      ApplyAllKeepsLastWrite(r1, us[1..], id);
      LookupAfterApply(r, us[0], id);
      assert us == [us[0]] + us[1..];
      LastWrittenFront(Lookup(r, id), us[0], us[1..], id);
    }
  }
}
