/**
 * The marker registry `#markers`: a list of `{id, marker?, line?}` objects, one per
 * rendered workout, found with `find` and created when missing. Map handles are opaque
 * serial numbers; what Leaflet does with them is left out.
 */
module Registry {
  import opened Options

  /** A Leaflet layer (a marker or a polyline), known only by identity. */
  datatype Handle = Handle(serial: nat)

  datatype MarkerEntry = MarkerEntry(id: string, marker: Option<Handle>, line: Option<Handle>)

  /** `#markers.find(m => m.id === id)`, as the index of the first entry with that id. */
  function FindEntry(reg: seq<MarkerEntry>, id: string): (r: Option<nat>)
    ensures r.Some? ==> r.value < |reg| && reg[r.value].id == id
    ensures r.Some? ==> forall j :: 0 <= j < r.value ==> reg[j].id != id
    ensures r.None? ==> forall j :: 0 <= j < |reg| ==> reg[j].id != id
  {
    if |reg| == 0 then None
    else if reg[0].id == id then Some(0)
    else match FindEntry(reg[1..], id)
      case None => None
      case Some(k) => Some(k + 1)
  }

  /** The first-match property determines the result of `FindEntry`. */
  lemma FindEntryIs(reg: seq<MarkerEntry>, id: string, k: Option<nat>)
    requires k.Some? ==> k.value < |reg| && reg[k.value].id == id
    requires k.Some? ==> forall j :: 0 <= j < k.value ==> reg[j].id != id
    requires k.None? ==> forall j :: 0 <= j < |reg| ==> reg[j].id != id
    ensures FindEntry(reg, id) == k
  {
  }

  predicate UniqueIds(reg: seq<MarkerEntry>) {
    forall i, j :: 0 <= i < j < |reg| ==> reg[i].id != reg[j].id
  }

  function EntryIds(reg: seq<MarkerEntry>): set<string> {
    set e | e in reg :: e.id
  }

  /**
   * The entry for `id` after the find-or-create step: the first registered one, or a fresh
   * `{id}`. Defined entry by entry; `CurrentIsFound` ties it to `FindEntry`.
   */
  function Current(reg: seq<MarkerEntry>, id: string): (e: MarkerEntry)
    ensures e.id == id
  {
    if |reg| == 0 then MarkerEntry(id, None, None)
    else if reg[0].id == id then reg[0]
    else Current(reg[1..], id)
  }

  /**
   * Stores `e` in the registry: over the first entry with its id, or pushed at the end.
   * Defined entry by entry; `PutIsUpsert` ties it to the find-then-assign-or-push.
   */
  function Put(reg: seq<MarkerEntry>, e: MarkerEntry): seq<MarkerEntry> {
    if |reg| == 0 then [e]
    else if reg[0].id == e.id then [e] + reg[1..]
    else [reg[0]] + Put(reg[1..], e)
  }

  /** `_renderWorkoutMarker`'s registry step: `markerObj.marker = marker`. */
  function SetMarker(reg: seq<MarkerEntry>, id: string, h: Handle): seq<MarkerEntry> {
    Put(reg, Current(reg, id).(marker := Some(h)))
  }

  /** `_renderConnectionLine`'s registry step: `markerObj.line = line`. */
  function SetLine(reg: seq<MarkerEntry>, id: string, h: Handle): seq<MarkerEntry> {
    Put(reg, Current(reg, id).(line := Some(h)))
  }

  /** `#markers.filter(m => m.id !== id)`: afterwards `find` finds no entry with the id. */
  function WithoutEntry(reg: seq<MarkerEntry>, id: string): (r: seq<MarkerEntry>)
    ensures |r| <= |reg|
    ensures FindEntry(r, id).None?
  {
    if |reg| == 0 then []
    else (if reg[0].id == id then [] else [reg[0]]) + WithoutEntry(reg[1..], id)
  }

  /** Both handles of the workout `id` are registered. */
  predicate Rendered(reg: seq<MarkerEntry>, id: string) {
    Current(reg, id).marker.Some? && Current(reg, id).line.Some?
  }

  predicate HandleBelow(h: Option<Handle>, bound: nat) {
    h.Some? ==> h.value.serial < bound
  }

  /** Every registered handle was issued before serial `bound`. */
  predicate HandlesBelow(reg: seq<MarkerEntry>, bound: nat) {
    forall i :: 0 <= i < |reg| ==> HandleBelow(reg[i].marker, bound) && HandleBelow(reg[i].line, bound)
  }

  // ---------------------------------------------------------------------------
  // The find step

  /** `Current` is the entry at the index `find` returns, or a fresh one when there is none. */
  lemma {:induction false} CurrentIsFound(reg: seq<MarkerEntry>, id: string)
    ensures Current(reg, id) == match FindEntry(reg, id)
                                case Some(i) => reg[i]
                                case None => MarkerEntry(id, None, None)
  {
    if |reg| > 0 && reg[0].id != id {
      CurrentIsFound(reg[1..], id);
    }
  }

  /** The found entry is a registered one unless it is the fresh `{id}`. */
  lemma {:induction false} CurrentIn(reg: seq<MarkerEntry>, id: string)
    ensures Current(reg, id) in reg || Current(reg, id) == MarkerEntry(id, None, None)
  {
    if |reg| > 0 && reg[0].id != id {
      CurrentIn(reg[1..], id);
    }
  }

  /** A rendered workout has an entry of its own in the registry. */
  lemma RenderedIsRegistered(reg: seq<MarkerEntry>, id: string)
    requires Rendered(reg, id)
    ensures id in EntryIds(reg)
  {
    CurrentIn(reg, id);
  }

  /** Every handle of the found entry was issued before the bound. */
  lemma CurrentHandles(reg: seq<MarkerEntry>, id: string, bound: nat)
    requires HandlesBelow(reg, bound)
    ensures HandleBelow(Current(reg, id).marker, bound) && HandleBelow(Current(reg, id).line, bound)
  {
    CurrentIn(reg, id);
  }

  // ---------------------------------------------------------------------------
  // Properties of the filter

  lemma {:induction false} WithoutEntryMembers(reg: seq<MarkerEntry>, id: string)
    ensures forall e :: e in WithoutEntry(reg, id) <==> e in reg && e.id != id
  {
    if |reg| > 0 {
      WithoutEntryMembers(reg[1..], id);
      assert reg == [reg[0]] + reg[1..];
    }
  }

  lemma {:induction false} WithoutAbsentEntry(reg: seq<MarkerEntry>, id: string)
    requires forall j :: 0 <= j < |reg| ==> reg[j].id != id
    ensures WithoutEntry(reg, id) == reg
  {
    if |reg| > 0 {
      WithoutAbsentEntry(reg[1..], id);
      assert reg == [reg[0]] + reg[1..];
    }
  }

  /** Filtering keeps distinct ids distinct (it keeps a subsequence). */
  lemma {:induction false} WithoutEntryUnique(reg: seq<MarkerEntry>, id: string)
    requires UniqueIds(reg)
    ensures UniqueIds(WithoutEntry(reg, id))
  {
    if |reg| > 0 {
      WithoutEntryUnique(reg[1..], id);
      WithoutEntryMembers(reg[1..], id);
      var rest := WithoutEntry(reg[1..], id);
      forall j | 0 <= j < |rest|
        ensures rest[j].id != reg[0].id
      {
        assert rest[j] in reg[1..];
      }
    }
  }

  /** Filtering out `id` leaves the entry of every other id as it was. */
  lemma {:induction false} WithoutEntryKeepsOthers(reg: seq<MarkerEntry>, id: string, x: string)
    requires x != id
    ensures Current(WithoutEntry(reg, id), x) == Current(reg, x)
  {
    if |reg| > 0 {
      WithoutEntryKeepsOthers(reg[1..], id, x);
      var rest := WithoutEntry(reg[1..], id);
      if reg[0].id != id {
        assert WithoutEntry(reg, id) == [reg[0]] + rest;
        assert ([reg[0]] + rest)[1..] == rest;
      } else {
        assert WithoutEntry(reg, id) == rest;
      }
    }
  }

  /**
   * Deleting the entries of `id` removes exactly them: `id` is no longer registered, the
   * others keep their entries, ids stay unique, and nothing enters.
   */
  lemma RemoveEntrySpec(reg: seq<MarkerEntry>, id: string)
    requires UniqueIds(reg)
    ensures var r := WithoutEntry(reg, id);
      && UniqueIds(r)
      && EntryIds(r) == EntryIds(reg) - {id}
      && (forall x :: x != id ==> Current(r, x) == Current(reg, x))
      && (forall e :: e in r ==> e in reg)
  {
    var r := WithoutEntry(reg, id);
    WithoutEntryMembers(reg, id);
    WithoutEntryUnique(reg, id);
    forall x | x != id
      ensures Current(r, x) == Current(reg, x)
    {
      WithoutEntryKeepsOthers(reg, id, x);
    }
  }

  /** Filtering keeps every surviving entry's handles below the bound. */
  lemma WithoutEntryHandles(reg: seq<MarkerEntry>, id: string, bound: nat)
    requires HandlesBelow(reg, bound)
    ensures HandlesBelow(WithoutEntry(reg, id), bound)
  {
    WithoutEntryMembers(reg, id);
    var r := WithoutEntry(reg, id);
    forall i | 0 <= i < |r|
      ensures HandleBelow(r[i].marker, bound) && HandleBelow(r[i].line, bound)
    {
      assert r[i] in reg;
      var j :| 0 <= j < |reg| && reg[j] == r[i];
    }
  }

  // ---------------------------------------------------------------------------
  // Properties of the find-or-create update

  /** Where `find` returns an index, `Put` assigns there. */
  lemma {:induction false} PutAt(reg: seq<MarkerEntry>, e: MarkerEntry, i: nat)
    requires FindEntry(reg, e.id) == Some(i)
    ensures Put(reg, e) == reg[i := e]
  {
    if reg[0].id != e.id {
      PutAt(reg[1..], e, i - 1);
      var t := reg[1..][i - 1 := e];
      assert forall k :: 0 <= k < |reg| ==> ([reg[0]] + t)[k] == reg[i := e][k];
    }
  }

  /** Where `find` returns nothing, `Put` pushes. */
  lemma {:induction false} PutPush(reg: seq<MarkerEntry>, e: MarkerEntry)
    requires FindEntry(reg, e.id).None?
    ensures Put(reg, e) == reg + [e]
  {
    if |reg| > 0 {
      PutPush(reg[1..], e);
      assert [reg[0]] + (reg[1..] + [e]) == reg + [e];
    }
  }

  /** `Put` assigns at the index `find` returns, or pushes when there is none. */
  lemma PutIsUpsert(reg: seq<MarkerEntry>, e: MarkerEntry)
    ensures Put(reg, e) == match FindEntry(reg, e.id)
                           case Some(i) => reg[i := e]
                           case None => reg + [e]
  {
    match FindEntry(reg, e.id)
    case Some(i) => PutAt(reg, e, i);
    case None => PutPush(reg, e);
  }

  /**
   * Reading back after the upsert: the entry of `e`'s id is `e`, every other id keeps the
   * entry it had. This holds whether or not ids were unique before.
   */
  lemma {:induction false} PutCurrent(reg: seq<MarkerEntry>, e: MarkerEntry, x: string)
    ensures Current(Put(reg, e), x) == if x == e.id then e else Current(reg, x)
  {
    if |reg| == 0 {
      assert [e][1..] == [];
    } else if reg[0].id == e.id {
      assert ([e] + reg[1..])[1..] == reg[1..];
    } else {
      PutCurrent(reg[1..], e, x);
      assert ([reg[0]] + Put(reg[1..], e))[1..] == Put(reg[1..], e);
    }
  }

  lemma EntryIdsCons(h: MarkerEntry, t: seq<MarkerEntry>)
    ensures EntryIds([h] + t) == {h.id} + EntryIds(t)
  {
    assert h in [h] + t;
    forall y | y in EntryIds(t) ensures y in EntryIds([h] + t) {
      var f :| f in t && f.id == y;
      assert f in [h] + t;
    }
  }

  /** The upsert adds `e`'s id to the registered ids and no other. */
  lemma {:induction false} PutIds(reg: seq<MarkerEntry>, e: MarkerEntry)
    ensures EntryIds(Put(reg, e)) == EntryIds(reg) + {e.id}
  {
    if |reg| == 0 {
      assert e in [e];
    } else {
      assert reg == [reg[0]] + reg[1..];
      EntryIdsCons(reg[0], reg[1..]);
      if reg[0].id == e.id {
        EntryIdsCons(e, reg[1..]);
      } else {
        PutIds(reg[1..], e);
        EntryIdsCons(reg[0], Put(reg[1..], e));
      }
    }
  }

  /** Nothing but `e` enters the registry. */
  lemma {:induction false} PutMembers(reg: seq<MarkerEntry>, e: MarkerEntry)
    ensures forall f :: f in Put(reg, e) ==> f in reg || f == e
  {
    if |reg| > 0 {
      assert reg == [reg[0]] + reg[1..];
      if reg[0].id != e.id {
        PutMembers(reg[1..], e);
      }
    }
  }

  /** Deleting `e`'s id after the upsert is the same as deleting it before. */
  lemma {:induction false} PutWithout(reg: seq<MarkerEntry>, e: MarkerEntry)
    ensures WithoutEntry(Put(reg, e), e.id) == WithoutEntry(reg, e.id)
  {
    if |reg| == 0 {
      assert [e][1..] == [];
    } else if reg[0].id == e.id {
      assert ([e] + reg[1..])[1..] == reg[1..];
    } else {
      PutWithout(reg[1..], e);
      assert ([reg[0]] + Put(reg[1..], e))[1..] == Put(reg[1..], e);
    }
  }

  /** The upsert keeps ids unique: it overwrites the one entry of `e`'s id or appends a new id. */
  lemma PutUnique(reg: seq<MarkerEntry>, e: MarkerEntry)
    requires UniqueIds(reg)
    ensures UniqueIds(Put(reg, e))
  {
    PutIsUpsert(reg, e);
  }

  /** Storing an entry whose handles were issued before the bound keeps every handle below it. */
  lemma PutHandles(reg: seq<MarkerEntry>, e: MarkerEntry, bound: nat)
    requires HandlesBelow(reg, bound)
    requires HandleBelow(e.marker, bound) && HandleBelow(e.line, bound)
    ensures HandlesBelow(Put(reg, e), bound)
  {
    PutIsUpsert(reg, e);
  }

  /** A second upsert of the same id replaces the first one's entry. */
  lemma {:induction false} PutTwice(reg: seq<MarkerEntry>, e1: MarkerEntry, e2: MarkerEntry)
    requires e1.id == e2.id
    ensures Put(Put(reg, e1), e2) == Put(reg, e2)
  {
    if |reg| == 0 {
      assert [e1][1..] == [];
    } else if reg[0].id == e1.id {
      assert ([e1] + reg[1..])[1..] == reg[1..];
    } else {
      PutTwice(reg[1..], e1, e2);
      assert ([reg[0]] + Put(reg[1..], e1))[1..] == Put(reg[1..], e1);
    }
  }

  /**
   * The upsert: afterwards the entry of `e`'s id is `e` and, ids being unique, it is the
   * only one; every other id keeps its entry, and nothing else enters.
   */
  lemma PutSpec(reg: seq<MarkerEntry>, e: MarkerEntry)
    requires UniqueIds(reg)
    ensures var r := Put(reg, e);
      && UniqueIds(r)
      && Current(r, e.id) == e
      && (forall x :: x != e.id ==> Current(r, x) == Current(reg, x))
      && WithoutEntry(r, e.id) == WithoutEntry(reg, e.id)
      && EntryIds(r) == EntryIds(reg) + {e.id}
      && (forall f :: f in r ==> f in reg || f == e)
  {
    PutUnique(reg, e);
    forall x
      ensures Current(Put(reg, e), x) == if x == e.id then e else Current(reg, x)
    {
      PutCurrent(reg, e, x);
    }
    PutWithout(reg, e);
    PutIds(reg, e);
    PutMembers(reg, e);
  }

  /**
   * Rendering a marker for `id` (`_renderWorkoutMarker`): the entry of `id` gets the new
   * marker and keeps its line (none for a new entry); all other entries are kept.
   */
  lemma SetMarkerSpec(reg: seq<MarkerEntry>, id: string, h: Handle)
    requires UniqueIds(reg)
    ensures var r := SetMarker(reg, id, h);
      && UniqueIds(r)
      && Current(r, id) == Current(reg, id).(marker := Some(h))
      && (forall x :: x != id ==> Current(r, x) == Current(reg, x))
      && WithoutEntry(r, id) == WithoutEntry(reg, id)
      && EntryIds(r) == EntryIds(reg) + {id}
  {
    PutSpec(reg, Current(reg, id).(marker := Some(h)));
  }

  /** Rendering a connection line for `id` (`_renderConnectionLine`), symmetrically. */
  lemma SetLineSpec(reg: seq<MarkerEntry>, id: string, h: Handle)
    requires UniqueIds(reg)
    ensures var r := SetLine(reg, id, h);
      && UniqueIds(r)
      && Current(r, id) == Current(reg, id).(line := Some(h))
      && (forall x :: x != id ==> Current(r, x) == Current(reg, x))
      && WithoutEntry(r, id) == WithoutEntry(reg, id)
      && EntryIds(r) == EntryIds(reg) + {id}
  {
    PutSpec(reg, Current(reg, id).(line := Some(h)));
  }

  lemma HandlesBelowGrow(reg: seq<MarkerEntry>, bound: nat, bound': nat)
    requires HandlesBelow(reg, bound) && bound <= bound'
    ensures HandlesBelow(reg, bound')
  {
  }

  // ---------------------------------------------------------------------------
  // A workout's two layers

  /** A workout rendered on the map: its marker with serial `n` and its line with serial `n + 1`. */
  function RenderBoth(reg: seq<MarkerEntry>, id: string, n: nat): seq<MarkerEntry> {
    Put(reg, MarkerEntry(id, Some(Handle(n)), Some(Handle(n + 1))))
  }

  /** Rendering the marker and then the line, as the App does, is `RenderBoth`. */
  lemma RenderBothIsTwoSets(reg: seq<MarkerEntry>, id: string, n: nat)
    ensures SetLine(SetMarker(reg, id, Handle(n)), id, Handle(n + 1)) == RenderBoth(reg, id, n)
  {
    var e1 := Current(reg, id).(marker := Some(Handle(n)));
    PutCurrent(reg, e1, id);
    PutTwice(reg, e1, MarkerEntry(id, Some(Handle(n)), Some(Handle(n + 1))));
  }

  /** Rendering both layers of `id` gives it the two new handles and leaves every other id's entry alone. */
  lemma RenderBothCurrent(reg: seq<MarkerEntry>, id: string, n: nat, x: string)
    ensures Current(RenderBoth(reg, id, n), x)
            == if x == id then MarkerEntry(id, Some(Handle(n)), Some(Handle(n + 1))) else Current(reg, x)
  {
    PutCurrent(reg, MarkerEntry(id, Some(Handle(n)), Some(Handle(n + 1))), x);
  }

  /** Rendering both layers of `id` registers `id` and no other id. */
  lemma RenderBothIds(reg: seq<MarkerEntry>, id: string, n: nat)
    ensures EntryIds(RenderBoth(reg, id, n)) == EntryIds(reg) + {id}
  {
    PutIds(reg, MarkerEntry(id, Some(Handle(n)), Some(Handle(n + 1))));
  }

  lemma RenderBothUnique(reg: seq<MarkerEntry>, id: string, n: nat)
    requires UniqueIds(reg)
    ensures UniqueIds(RenderBoth(reg, id, n))
  {
    PutUnique(reg, MarkerEntry(id, Some(Handle(n)), Some(Handle(n + 1))));
  }

  /** The two new serials are `n` and `n + 1`, so every handle stays below `n + 2`. */
  lemma RenderBothHandles(reg: seq<MarkerEntry>, id: string, n: nat)
    requires HandlesBelow(reg, n)
    ensures HandlesBelow(RenderBoth(reg, id, n), n + 2)
  {
    HandlesBelowGrow(reg, n, n + 2);
    PutHandles(reg, MarkerEntry(id, Some(Handle(n)), Some(Handle(n + 1))), n + 2);
  }

  /**
   * After rendering both layers of `id`, it is rendered with the two new handles, every
   * other id keeps its entry, ids stay unique and every handle is below the advanced bound.
   */
  lemma RenderBothSpec(reg: seq<MarkerEntry>, id: string, n: nat)
    requires UniqueIds(reg) && HandlesBelow(reg, n)
    ensures var r := RenderBoth(reg, id, n);
      && UniqueIds(r)
      && HandlesBelow(r, n + 2)
      && EntryIds(r) == EntryIds(reg) + {id}
      && Current(r, id) == MarkerEntry(id, Some(Handle(n)), Some(Handle(n + 1)))
      && (forall x :: x != id ==> Current(r, x) == Current(reg, x))
  {
    RenderBothUnique(reg, id, n);
    RenderBothHandles(reg, id, n);
    RenderBothIds(reg, id, n);
    forall x
      ensures Current(RenderBoth(reg, id, n), x)
              == if x == id then MarkerEntry(id, Some(Handle(n)), Some(Handle(n + 1))) else Current(reg, x)
    {
      RenderBothCurrent(reg, id, n, x);
    }
  }
}
