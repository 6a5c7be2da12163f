/** The selection state of a bundle collection page: the capacity-bounded selection, the
    snapshot and its storage backups, and the marks on the product grid. */
module BundleSelection {
  import opened Wrappers
  import opened Text
  import opened Shop
  import opened BundleCatalog

  /** What the selection keeps for a product besides its id: the handle of its link, or
      nothing (the script stores `true`) when no variant data was known. */
  datatype Lookup = ByHandle(handle: string) | IdOnly

  /** One entry of the selection map, in insertion order. */
  datatype Entry = Entry(id: int, lookup: Lookup)

  /** What the page learned about an eligible product: its title, the variant that goes
      into the bundle, and the handle of its link. */
  datatype ProductInfo = ProductInfo(title: string, variantId: int, handle: string)

  /** A product element of the grid: the id stamped on it (if any), the `href` of its
      product link (empty once the link is disabled) and whether it is marked selected. */
  datatype Card = Card(productId: Option<int>, href: string, selected: bool)

  predicate Has(sel: seq<Entry>, id: int) {
    exists i :: 0 <= i < |sel| && sel[i].id == id
  }

  /** The selection is a map: no id occurs twice. */
  predicate DistinctIds(sel: seq<Entry>) {
    forall i, j :: 0 <= i < j < |sel| ==> sel[i].id != sel[j].id
  }

  lemma HasAppend(sel: seq<Entry>, e: Entry, id: int)
    ensures Has(sel + [e], id) <==> Has(sel, id) || e.id == id
  {
    if Has(sel, id) {
      var i :| 0 <= i < |sel| && sel[i].id == id;
      assert (sel + [e])[i] == sel[i];
    }
    if e.id == id {
      assert (sel + [e])[|sel|] == e;
    }
  }

  /** `Map.delete(id)`: the entry for `id` goes, the others stay in their order. */
  function Remove(sel: seq<Entry>, id: int): (r: seq<Entry>)
    ensures !Has(r, id)
    ensures forall x :: x != id ==> (Has(r, x) <==> Has(sel, x))
    ensures DistinctIds(sel) ==> DistinctIds(r)
    ensures DistinctIds(sel) ==> |r| == if Has(sel, id) then |sel| - 1 else |sel|
    ensures !Has(sel, id) ==> r == sel
  {
    if sel == [] then []
    else
      var tail := Remove(sel[1..], id);
      assert forall x :: Has(sel, x) <==> sel[0].id == x || Has(sel[1..], x) by {
        forall x ensures Has(sel, x) <==> sel[0].id == x || Has(sel[1..], x) {
          if Has(sel, x) && sel[0].id != x {
            var i :| 0 <= i < |sel| && sel[i].id == x;
            assert sel[1..][i - 1] == sel[i];
          }
          if Has(sel[1..], x) {
            var i :| 0 <= i < |sel[1..]| && sel[1..][i].id == x;
            assert sel[i + 1] == sel[1..][i];
          }
        }
      }
      if sel[0].id == id then tail
      else
        var r := [sel[0]] + tail;
        assert forall x :: Has(r, x) <==> sel[0].id == x || Has(tail, x) by {
          forall x ensures Has(r, x) <==> sel[0].id == x || Has(tail, x) {
            if Has(r, x) && sel[0].id != x {
              var i :| 0 <= i < |r| && r[i].id == x;
              assert tail[i - 1] == r[i];
            }
            if Has(tail, x) {
              var i :| 0 <= i < |tail| && tail[i].id == x;
              assert r[i + 1] == tail[i];
            }
            assert r[0] == sel[0];
          }
        }
        assert DistinctIds(sel) ==> !Has(sel[1..], sel[0].id);
        assert !Has(sel, id) ==> tail == sel[1..] && r == sel;
        r
  }

  /** On a map, deleting the id of entry `k` cuts exactly that entry out: every other
      entry keeps its lookup and its place in the order. */
  lemma {:induction false} RemoveSplices(sel: seq<Entry>, id: int, k: nat)
    requires DistinctIds(sel) && k < |sel| && sel[k].id == id
    ensures Remove(sel, id) == sel[..k] + sel[k + 1..]
    decreases |sel|
  {
    var rest := sel[1..];
    DistinctIdsTail(sel);
    if k == 0 {
      assert !Has(rest, id) by {
        forall i | 0 <= i < |rest| ensures rest[i].id != id {
          assert rest[i] == sel[i + 1];
        }
      }
    } else {
      assert sel[0].id != id;
      assert rest[k - 1] == sel[k];
      RemoveSplices(rest, id, k - 1);
      assert sel[..k] == [sel[0]] + rest[..k - 1];
      assert sel[k + 1..] == rest[k..];
    }
  }

  lemma {:induction false} DistinctIdsTail(sel: seq<Entry>)
    requires DistinctIds(sel) && sel != []
    ensures DistinctIds(sel[1..])
  {
    var rest := sel[1..];
    forall i, j | 0 <= i < j < |rest|
      ensures rest[i].id != rest[j].id
    {
      assert rest[i] == sel[i + 1] && rest[j] == sel[j + 1];
    }
  }

  // ---------------------------------------------------------------------------
  // Toggling a product

  /** What a toggle did: removed the product, added it leaving `remaining` free places,
      or refused it because the bundle is full. */
  datatype ToggleOutcome = Removed | Added(remaining: int) | AtCapacity

  /** The value stored with a newly selected product: its handle when the page knows it. */
  function LookupFor(known: map<int, ProductInfo>, id: int): Lookup {
    if id in known then ByHandle(known[id].handle) else IdOnly
  }

  /** `toggleProduct` on the selection map. */
  function ToggleSelection(sel: seq<Entry>, id: int, known: map<int, ProductInfo>, maxProducts: nat)
    : (r: (seq<Entry>, ToggleOutcome))
    ensures Has(sel, id) ==> r.1 == Removed && !Has(r.0, id)
    ensures Has(sel, id) ==> forall x :: x != id ==> (Has(r.0, x) <==> Has(sel, x))
    ensures Has(sel, id) ==> r.0 == Remove(sel, id)
    ensures !Has(sel, id) && |sel| < maxProducts ==>
      r.0 == sel + [Entry(id, LookupFor(known, id))] && r.1 == Added(maxProducts - |r.0|)
    ensures !Has(sel, id) && |sel| >= maxProducts ==> r.0 == sel && r.1 == AtCapacity
    ensures DistinctIds(sel) ==> DistinctIds(r.0)
    ensures DistinctIds(sel) && Has(sel, id) ==> |r.0| == |sel| - 1
    ensures DistinctIds(sel) && |sel| <= maxProducts ==> |r.0| <= maxProducts
  {
    if Has(sel, id) then (Remove(sel, id), Removed)
    else if |sel| < maxProducts then
      var r := sel + [Entry(id, LookupFor(known, id))];
      assert forall i :: 0 <= i < |sel| ==> r[i] == sel[i];
      (r, Added(maxProducts - |r|))
    else (sel, AtCapacity)
  }

  /** The "almost there" notice follows an add that leaves between one and three places. */
  predicate AlmostThere(outcome: ToggleOutcome) {
    outcome.Added? && 0 < outcome.remaining <= 3
  }

  /** Toggling the same product twice gives back the same set of products, as long as the
      selection was within capacity. */
  lemma {:induction false} ToggleTwiceSameMembers(sel: seq<Entry>, id: int, known: map<int, ProductInfo>,
                                                  maxProducts: nat)
    requires DistinctIds(sel) && |sel| <= maxProducts
    ensures var once := ToggleSelection(sel, id, known, maxProducts).0;
      var twice := ToggleSelection(once, id, known, maxProducts).0;
      forall x :: Has(twice, x) <==> Has(sel, x)
  {
    var once := ToggleSelection(sel, id, known, maxProducts).0;
    var twice := ToggleSelection(once, id, known, maxProducts).0;
    var e := Entry(id, LookupFor(known, id));
    if Has(sel, id) {
      assert twice == once + [e];
      forall x ensures Has(twice, x) <==> Has(sel, x) {
        HasAppend(once, e, x);
      }
    } else if |sel| < maxProducts {
      forall x ensures Has(once, x) <==> Has(sel, x) || x == id {
        HasAppend(sel, e, x);
      }
    }
  }

  /** Toggling the ids of `ids` one after the other. */
  function ToggleAll(sel: seq<Entry>, ids: seq<int>, known: map<int, ProductInfo>, maxProducts: nat): seq<Entry>
    decreases |ids|
  {
    if ids == [] then sel
    else ToggleAll(ToggleSelection(sel, ids[0], known, maxProducts).0, ids[1..], known, maxProducts)
  }

  /** Toggling new, distinct products fills the bundle one place each until it is full;
      from then on every new product is refused, so the selection never exceeds
      `maxProducts`. */
  lemma {:induction false} ToggleAllFills(sel: seq<Entry>, ids: seq<int>, known: map<int, ProductInfo>,
                                          maxProducts: nat)
    requires DistinctIds(sel) && |sel| <= maxProducts
    requires forall i, j :: 0 <= i < j < |ids| ==> ids[i] != ids[j]
    requires forall i :: 0 <= i < |ids| ==> !Has(sel, ids[i])
    ensures var r := ToggleAll(sel, ids, known, maxProducts);
      DistinctIds(r) && |r| == if |sel| + |ids| <= maxProducts then |sel| + |ids| else maxProducts
    decreases |ids|
  {
    if ids != [] {
      var next := ToggleSelection(sel, ids[0], known, maxProducts).0;
      forall i | 0 <= i < |ids[1..]|
        ensures !Has(next, ids[1..][i])
      {
        assert ids[1..][i] == ids[i + 1] != ids[0];
        if |sel| < maxProducts {
          HasAppend(sel, Entry(ids[0], LookupFor(known, ids[0])), ids[i + 1]);
        }
      }
      ToggleAllFills(next, ids[1..], known, maxProducts);
    }
  }

  // ---------------------------------------------------------------------------
  // Snapshot and backups

  /** Where a lost selection can come back from: the in-memory snapshot, the session
      record (entries and the time they were written), the window backup (an empty
      sequence when absent) and the local record. */
  datatype Backups = Backups(
    snapshot: Option<seq<Entry>>,
    sessionEntries: Option<seq<Entry>>,
    sessionTime: Option<int>,
    windowEntries: seq<Entry>,
    localEntries: Option<seq<Entry>>)

  predicate BackupsDistinct(b: Backups) {
    && (b.snapshot.Some? ==> DistinctIds(b.snapshot.value))
    && (b.sessionEntries.Some? ==> DistinctIds(b.sessionEntries.value))
    && DistinctIds(b.windowEntries)
    && (b.localEntries.Some? ==> DistinctIds(b.localEntries.value))
  }

  /** The session record is honoured for five minutes. */
  const SessionMaxAge := 300000

  /** The restore sources, in the order they are tried. */
  datatype Source = FromSnapshot | FromSession | FromWindow | FromLocal

  function Rank(s: Source): nat {
    match s
    case FromSnapshot => 0
    case FromSession => 1
    case FromWindow => 2
    case FromLocal => 3
  }

  /** Whether a source can be restored from at time `now`. */
  predicate Usable(b: Backups, s: Source, now: int) {
    match s
    case FromSnapshot => b.snapshot.Some? && |b.snapshot.value| > 0
    case FromSession => b.sessionEntries.Some? && b.sessionTime.Some? && now - b.sessionTime.value < SessionMaxAge
    case FromWindow => |b.windowEntries| > 0
    case FromLocal => b.localEntries.Some?
  }

  /** The entries a source holds. */
  function Content(b: Backups, s: Source): seq<Entry> {
    match s
    case FromSnapshot => b.snapshot.GetOr([])
    case FromSession => b.sessionEntries.GetOr([])
    case FromWindow => b.windowEntries
    case FromLocal => b.localEntries.GetOr([])
  }

  /** `restoreSelectionSnapshot`'s choice: the usable source of lowest rank, if any. */
  function RestoreChoice(b: Backups, now: int): (r: Option<Source>)
    ensures r.Some? ==> Usable(b, r.value, now)
    ensures r.Some? ==> forall s :: Rank(s) < Rank(r.value) ==> !Usable(b, s, now)
    ensures r.None? ==> forall s :: !Usable(b, s, now)
  {
    if Usable(b, FromSnapshot, now) then Some(FromSnapshot)
    else if Usable(b, FromSession, now) then Some(FromSession)
    else if Usable(b, FromWindow, now) then Some(FromWindow)
    else if Usable(b, FromLocal, now) then Some(FromLocal)
    else None
  }

  /** The backups after `saveSelectionSnapshot` at time `now`: the snapshot and the session
      record become the current selection, whatever it is. */
  function Saved(b: Backups, sel: seq<Entry>, now: int): Backups {
    b.(snapshot := Some(sel), sessionEntries := Some(sel), sessionTime := Some(now))
  }

  /** After a save of a non-empty selection, the next restore brings back exactly that
      selection, from the snapshot. */
  lemma SaveThenRestore(b: Backups, sel: seq<Entry>, saved: int, now: int)
    requires |sel| > 0
    ensures RestoreChoice(Saved(b, sel, saved), now) == Some(FromSnapshot)
    ensures Content(Saved(b, sel, saved), FromSnapshot) == sel
  {
  }

  /** A save of the empty selection still overwrites the session record, and for five
      minutes that empty record hides the window and local backups: the restore brings
      back nothing. */
  lemma {:induction false} EmptySaveHidesBackups(b: Backups, saved: int, now: int)
    requires now - saved < SessionMaxAge
    ensures RestoreChoice(Saved(b, [], saved), now) == Some(FromSession)
    ensures Content(Saved(b, [], saved), FromSession) == []
  {
    assert !Usable(Saved(b, [], saved), FromSnapshot, now);
  }

  /** The backups are not kept per bundle, so a restore can bring back more products than
      the current bundle holds, for instance a fifteen-product record on the five-product
      page. */
  lemma {:induction false} RestoreCanExceedCapacity(now: int)
    ensures var b := Backups(None, Some(seq(15, i => Entry(i, IdOnly))), Some(now), [], None);
      && RestoreChoice(b, now) == Some(FromSession)
      && DistinctIds(Content(b, FromSession))
      && |Content(b, FromSession)| > Bundle5.maxProducts
  {
  }

  /** The selection `init` ends with: what the restore ladder brings back, or the window
      backup when the ladder brought back an empty record. */
  function StartSelection(b: Backups, now: int): seq<Entry> {
    match RestoreChoice(b, now)
    case None => []
    case Some(s) => if |Content(b, s)| > 0 then Content(b, s) else b.windowEntries
  }

  /** A start-up restore never loses a non-empty window backup: something comes back, and
      what comes back is the content of one of the backups. */
  lemma {:induction false} StartSelectionKeepsWindow(b: Backups, now: int)
    ensures |b.windowEntries| > 0 ==> |StartSelection(b, now)| > 0
    ensures StartSelection(b, now) == [] || exists s :: Usable(b, s, now) && StartSelection(b, now) == Content(b, s)
    ensures BackupsDistinct(b) ==> DistinctIds(StartSelection(b, now))
  {
    match RestoreChoice(b, now)
    case None =>
    case Some(s) =>
      if |Content(b, s)| == 0 && |b.windowEntries| > 0 {
        assert Usable(b, FromWindow, now);
      }
  }

  // ---------------------------------------------------------------------------
  // Marking the grid

  /** The first card stamped with `id` (`.t4s-product[data-product-id="id"]`). */
  function FirstWithId(page: seq<Card>, id: int, from: nat): (r: Option<nat>)
    ensures r.Some? ==> from <= r.value < |page| && page[r.value].productId == Some(id)
    ensures r.Some? ==> forall j :: from <= j < r.value ==> page[j].productId != Some(id)
    ensures r.None? ==> forall j :: from <= j < |page| ==> page[j].productId != Some(id)
    decreases |page| - from
  {
    if from >= |page| then None
    else if page[from].productId == Some(id) then Some(from)
    else FirstWithId(page, id, from + 1)
  }

  /** The first card whose product link contains `/products/<handle>`. */
  function FirstWithHandle(page: seq<Card>, handle: string, from: nat): (r: Option<nat>)
    ensures r.Some? ==> from <= r.value < |page| && Contains(page[r.value].href, ProductsMarker + handle)
    ensures r.Some? ==> forall j :: from <= j < r.value ==> !Contains(page[j].href, ProductsMarker + handle)
    ensures r.None? ==> forall j :: from <= j < |page| ==> !Contains(page[j].href, ProductsMarker + handle)
    decreases |page| - from
  {
    if from >= |page| then None
    else if Contains(page[from].href, ProductsMarker + handle) then Some(from)
    else FirstWithHandle(page, handle, from + 1)
  }

  /** The card an entry is re-applied to: by id first, then by handle when one is kept. */
  function Locate(page: seq<Card>, e: Entry): (r: Option<nat>)
    ensures r.Some? ==> r.value < |page|
  {
    match FirstWithId(page, e.id, 0)
    case Some(i) => Some(i)
    case None =>
      match e.lookup
      case IdOnly => None
      case ByHandle(h) => FirstWithHandle(page, h, 0)
  }

  /** Marking one entry: the card found is marked and stamped with the entry's id. */
  function MarkEntry(page: seq<Card>, e: Entry): (r: seq<Card>)
    ensures |r| == |page|
    ensures forall i :: 0 <= i < |page| ==> r[i].href == page[i].href
  {
    match Locate(page, e)
    case None => page
    case Some(i) => page[i := Card(Some(e.id), page[i].href, true)]
  }

  /** Marking the entries in selection order. */
  function MarkAll(page: seq<Card>, sel: seq<Entry>): (r: seq<Card>)
    ensures |r| == |page|
    ensures forall i :: 0 <= i < |page| ==> r[i].href == page[i].href
    decreases |sel|
  {
    if sel == [] then page else MarkEntry(MarkAll(page, sel[..|sel| - 1]), sel[|sel| - 1])
  }

  /** Every mark removed. */
  function ClearMarks(page: seq<Card>): (r: seq<Card>)
    ensures |r| == |page|
    ensures forall i :: 0 <= i < |page| ==> r[i] == page[i].(selected := false)
  {
    seq(|page|, i requires 0 <= i < |page| => page[i].(selected := false))
  }

  /** The grid after `reapplySelections`: all marks cleared, then each entry marked. */
  function Reapplied(page: seq<Card>, sel: seq<Entry>): seq<Card> {
    MarkAll(ClearMarks(page), sel)
  }

  lemma {:induction false} MarkAllStep(page: seq<Card>, sel: seq<Entry>, k: nat)
    requires k < |sel|
    ensures MarkAll(page, sel[..k + 1]) == MarkEntry(MarkAll(page, sel[..k]), sel[k])
  {
    assert sel[..k + 1][..k] == sel[..k];
  }

  /** Two grids that agree on ids and links locate every entry on the same card. */
  lemma {:induction false} LocateAgrees(p: seq<Card>, q: seq<Card>, e: Entry)
    requires |p| == |q|
    requires forall i :: 0 <= i < |p| ==> p[i].productId == q[i].productId && p[i].href == q[i].href
    ensures Locate(p, e) == Locate(q, e)
  {
    var a, b := FirstWithId(p, e.id, 0), FirstWithId(q, e.id, 0);
    if a.Some? && b.Some? {
      assert !(a.value < b.value) && !(b.value < a.value);
    }
    if e.lookup.ByHandle? {
      var h := e.lookup.handle;
      var c, d := FirstWithHandle(p, h, 0), FirstWithHandle(q, h, 0);
      if c.Some? && d.Some? {
        assert !(c.value < d.value) && !(d.value < c.value);
      }
    }
  }

  /** Two grids with the same links find the same card for a handle. */
  lemma {:induction false} HandleAgrees(p: seq<Card>, q: seq<Card>, h: string)
    requires |p| == |q|
    requires forall i :: 0 <= i < |p| ==> p[i].href == q[i].href
    ensures FirstWithHandle(p, h, 0) == FirstWithHandle(q, h, 0)
  {
    var c, d := FirstWithHandle(p, h, 0), FirstWithHandle(q, h, 0);
    if c.Some? && d.Some? {
      assert !(c.value < d.value) && !(d.value < c.value);
    }
  }

  /** The search by id finds the first card carrying the id. */
  lemma {:induction false} FirstWithIdFirst(p: seq<Card>, id: int, j: nat)
    requires j < |p| && p[j].productId == Some(id)
    requires forall i :: 0 <= i < j ==> p[i].productId != Some(id)
    ensures FirstWithId(p, id, 0) == Some(j)
  {
  }

  // ---------------------------------------------------------------------------
  // Re-marking twice

  /** `qs` lists the grids a marking pass goes through from `start`, and `ts` the card
      found at each step. */
  ghost predicate IsRun(start: seq<Card>, sel: seq<Entry>, qs: seq<seq<Card>>, ts: seq<Option<nat>>) {
    && |qs| == |sel| + 1 && |ts| == |sel| && qs[0] == start
    && forall k :: 0 <= k < |sel| ==> ts[k] == Locate(qs[k], sel[k]) && qs[k + 1] == MarkEntry(qs[k], sel[k])
  }

  /** The grids and targets of the pass that `MarkAll` performs. */
  ghost function Grids(start: seq<Card>, sel: seq<Entry>): seq<seq<Card>> {
    seq(|sel| + 1, k requires 0 <= k <= |sel| => MarkAll(start, sel[..k]))
  }

  ghost function Targets(start: seq<Card>, sel: seq<Entry>): seq<Option<nat>> {
    seq(|sel|, k requires 0 <= k < |sel| => Locate(MarkAll(start, sel[..k]), sel[k]))
  }

  lemma {:induction false} MarkAllRun(start: seq<Card>, sel: seq<Entry>)
    ensures IsRun(start, sel, Grids(start, sel), Targets(start, sel))
    ensures Grids(start, sel)[|sel|] == MarkAll(start, sel)
  {
    var qs, ts := Grids(start, sel), Targets(start, sel);
    assert sel[..0] == [] && sel[..|sel|] == sel;
    forall k | 0 <= k < |sel|
      ensures ts[k] == Locate(qs[k], sel[k]) && qs[k + 1] == MarkEntry(qs[k], sel[k])
    {
      MarkAllStep(start, sel, k);
    }
  }

  /** No card is found twice. */
  predicate DistinctHits(ts: seq<Option<nat>>) {
    forall a, b :: 0 <= a < b < |ts| && ts[a].Some? ==> ts[a] != ts[b]
  }

  /** Card `i` was found by one of the first `k` steps. */
  ghost predicate Hit(ts: seq<Option<nat>>, k: nat, i: nat)
    requires k <= |ts|
  {
    exists m :: 0 <= m < k && ts[m] == Some(i)
  }

  /** Card `i` was found by the first `k` steps when the first `k - 1` steps or step `k - 1`
      found it. */
  lemma {:induction false} HitStep(ts: seq<Option<nat>>, k: nat, i: nat)
    requires 0 < k <= |ts|
    ensures Hit(ts, k, i) <==> Hit(ts, k - 1, i) || ts[k - 1] == Some(i)
  {
    if Hit(ts, k, i) {
      var m :| 0 <= m < k && ts[m] == Some(i);
      if m < k - 1 {
        assert Hit(ts, k - 1, i);
      }
    }
    if ts[k - 1] == Some(i) {
      assert Hit(ts, k, i);
    }
  }

  /** One marking step: only the card found changes; it gets the id and the mark. */
  lemma {:induction false} MarkEntryEffect(q: seq<Card>, e: Entry)
    ensures var r, t := MarkEntry(q, e), Locate(q, e);
      && (forall i :: 0 <= i < |q| && t != Some(i) ==> r[i] == q[i])
      && (t.Some? ==> r[t.value] == Card(Some(e.id), q[t.value].href, true))
  {
  }

  /** What a pass with distinct targets leaves on each card after `k` steps: a card found
      at step `m` carries that entry's id and a mark; any other card keeps its id and its
      mark. */
  lemma {:induction false} RunState(start: seq<Card>, sel: seq<Entry>, qs: seq<seq<Card>>,
                                    ts: seq<Option<nat>>, k: nat)
    requires IsRun(start, sel, qs, ts) && DistinctHits(ts) && k <= |sel|
    ensures |qs[k]| == |start|
    ensures forall i :: 0 <= i < |start| ==> qs[k][i].href == start[i].href
    ensures forall m, i :: 0 <= m < k && 0 <= i < |start| && ts[m] == Some(i) ==>
      qs[k][i].productId == Some(sel[m].id)
    ensures forall i :: 0 <= i < |start| && !Hit(ts, k, i) ==> qs[k][i].productId == start[i].productId
    ensures forall i :: 0 <= i < |start| ==> (qs[k][i].selected <==> Hit(ts, k, i) || start[i].selected)
  {
    if k > 0 {
      RunState(start, sel, qs, ts, k - 1);
      var q0, q, t := qs[k - 1], qs[k], ts[k - 1];
      assert t == Locate(q0, sel[k - 1]) && q == MarkEntry(q0, sel[k - 1]);
      MarkEntryEffect(q0, sel[k - 1]);
      forall i | 0 <= i < |start|
        ensures Hit(ts, k, i) <==> Hit(ts, k - 1, i) || t == Some(i)
      {
        HitStep(ts, k, i);
      }
      if t.Some? {
        forall m, i | 0 <= m < k && 0 <= i < |start| && ts[m] == Some(i)
          ensures q[i].productId == Some(sel[m].id)
        {
          if m < k - 1 {
            assert i != t.value;
          }
        }
      }
    }
  }

  /** Where the id of entry `k` sits during a pass: after `k` steps it is on a card only if
      no step touched the card and the card had it at the start; at the end it is on a card
      only if step `k` found the card, or no earlier step did and the card had it. */
  lemma {:induction false} IdsAtEntry(start: seq<Card>, sel: seq<Entry>, qs: seq<seq<Card>>,
                                      ts: seq<Option<nat>>, k: nat)
    requires IsRun(start, sel, qs, ts) && DistinctHits(ts) && DistinctIds(sel) && k < |sel|
    ensures |qs[k]| == |qs[|sel|]| == |start|
    ensures forall i :: 0 <= i < |start| ==> qs[k][i].href == qs[|sel|][i].href
    ensures forall i :: 0 <= i < |start| ==>
      (qs[k][i].productId == Some(sel[k].id) <==> !Hit(ts, k, i) && start[i].productId == Some(sel[k].id))
    ensures forall i :: 0 <= i < |start| && qs[|sel|][i].productId == Some(sel[k].id) ==>
      ts[k] == Some(i) || (!Hit(ts, k, i) && start[i].productId == Some(sel[k].id))
    ensures ts[k].Some? ==> qs[|sel|][ts[k].value].productId == Some(sel[k].id)
  {
    var n, id := |sel|, sel[k].id;
    var qk, p1 := qs[k], qs[n];
    RunState(start, sel, qs, ts, k);
    RunState(start, sel, qs, ts, n);
    forall i | 0 <= i < |start| && Hit(ts, k, i)
      ensures qk[i].productId != Some(id)
    {
      var m :| 0 <= m < k && ts[m] == Some(i);
      assert sel[m].id != id;
    }
    forall i | 0 <= i < |start| && p1[i].productId == Some(id)
      ensures ts[k] == Some(i) || (!Hit(ts, k, i) && start[i].productId == Some(id))
    {
      if Hit(ts, n, i) {
        var m :| 0 <= m < n && ts[m] == Some(i);
        assert sel[m].id == id;
      }
    }
  }

  /** Under distinct ids and distinct targets, the grid a pass ends with locates every
      entry on the card the pass found for it. */
  lemma {:induction false} LocateStable(start: seq<Card>, sel: seq<Entry>, qs: seq<seq<Card>>,
                                        ts: seq<Option<nat>>, k: nat)
    requires IsRun(start, sel, qs, ts) && DistinctHits(ts) && DistinctIds(sel) && k < |sel|
    ensures Locate(qs[|sel|], sel[k]) == ts[k]
  {
    var n, id := |sel|, sel[k].id;
    var qk, p1 := qs[k], qs[n];
    IdsAtEntry(start, sel, qs, ts, k);
    assert ts[k] == Locate(qk, sel[k]);
    match FirstWithId(qk, id, 0)
    case Some(j) => {
      assert forall i :: 0 <= i < j ==> p1[i].productId != Some(id);
      FirstWithIdFirst(p1, id, j);
    }
    case None => {
      forall i | 0 <= i < |start| && p1[i].productId == Some(id)
        ensures ts[k] == Some(i)
      {
        assert qk[i].productId != Some(id);
      }
      if ts[k].Some? {
        FirstWithIdFirst(p1, id, ts[k].value);
      } else {
        assert FirstWithId(p1, id, 0) == None;
        if sel[k].lookup.ByHandle? {
          HandleAgrees(p1, qk, sel[k].lookup.handle);
        }
      }
    }
  }

  /** The first pass of re-marking finds no card for two entries. */
  ghost predicate DistinctTargets(page: seq<Card>, sel: seq<Entry>) {
    DistinctHits(Targets(ClearMarks(page), sel))
  }

  /** Re-applying the selection a second time changes nothing, provided the ids are
      distinct and the first pass found no card for two entries. */
  lemma {:induction false} ReappliedIdempotent(page: seq<Card>, sel: seq<Entry>)
    requires DistinctIds(sel) && DistinctTargets(page, sel)
    ensures Reapplied(Reapplied(page, sel), sel) == Reapplied(page, sel)
  {
    var n, c := |sel|, ClearMarks(page);
    var qs, ts := Grids(c, sel), Targets(c, sel);
    MarkAllRun(c, sel);
    var p1 := qs[n];
    RunState(c, sel, qs, ts, n);
    var c2 := ClearMarks(p1);
    var rs, us := Grids(c2, sel), Targets(c2, sel);
    MarkAllRun(c2, sel);
    SecondPass(c, sel, qs, ts, rs, us, n);
    assert rs[n] == p1;
  }

  /** The second pass follows the first: after `k` steps its grid has the final ids of the
      first pass and the marks of the first `k` steps. */
  lemma {:induction false} SecondPass(c: seq<Card>, sel: seq<Entry>, qs: seq<seq<Card>>, ts: seq<Option<nat>>,
                                      rs: seq<seq<Card>>, us: seq<Option<nat>>, k: nat)
    requires IsRun(c, sel, qs, ts) && DistinctHits(ts) && DistinctIds(sel) && k <= |sel|
    requires forall i :: 0 <= i < |c| ==> !c[i].selected
    requires |qs[|sel|]| == |c| && IsRun(ClearMarks(qs[|sel|]), sel, rs, us)
    ensures |rs[k]| == |c|
    ensures forall i :: 0 <= i < |c| ==>
      && rs[k][i].productId == qs[|sel|][i].productId
      && rs[k][i].href == qs[|sel|][i].href
      && (rs[k][i].selected <==> Hit(ts, k, i))
  {
    var n := |sel|;
    var p1 := qs[n];
    RunState(c, sel, qs, ts, n);
    if k > 0 {
      SecondPass(c, sel, qs, ts, rs, us, k - 1);
      var r0, r := rs[k - 1], rs[k];
      assert us[k - 1] == Locate(r0, sel[k - 1]) && r == MarkEntry(r0, sel[k - 1]);
      LocateAgrees(r0, p1, sel[k - 1]);
      LocateStable(c, sel, qs, ts, k - 1);
      assert us[k - 1] == ts[k - 1];
      MarkEntryEffect(r0, sel[k - 1]);
      forall i | 0 <= i < |c|
        ensures Hit(ts, k, i) <==> Hit(ts, k - 1, i) || ts[k - 1] == Some(i)
      {
        HitStep(ts, k, i);
      }
    }
  }

  /** Without distinct targets a second re-marking can differ: the first entry takes the
      card stamped with its id, the second entry's handle fallback then re-stamps that card
      with the second id, and the next pass finds the first entry's own card by handle. */
  lemma {:induction false} ReappliedTwiceCanDiffer()
    ensures var page := [Card(Some(1), "/products/h", false), Card(None, "/products/e", false)];
      var sel := [Entry(1, ByHandle("e")), Entry(2, ByHandle("h"))];
      && DistinctIds(sel)
      && !DistinctTargets(page, sel)
      && Reapplied(Reapplied(page, sel), sel) != Reapplied(page, sel)
  {
    var h, e := "/products/h", "/products/e";
    var page := [Card(Some(1), h, false), Card(None, e, false)];
    var sel := [Entry(1, ByHandle("e")), Entry(2, ByHandle("h"))];
    var p1 := [Card(Some(2), h, true), Card(None, e, false)];
    ExampleFirstPass(page, sel, p1);
    ExampleSecondPass(p1, sel);
  }

  /** In the example grid the handle `e` is found on the second card and `h` on the first. */
  lemma {:induction false} ExampleHandles(p: seq<Card>)
    requires |p| == 2 && p[0].href == "/products/h" && p[1].href == "/products/e"
    ensures FirstWithHandle(p, "e", 0) == Some(1) && FirstWithHandle(p, "h", 0) == Some(0)
  {
    var h, e := "/products/h", "/products/e";
    assert ProductsMarker + "h" == h && ProductsMarker + "e" == e;
    assert h[0..|h|] == h && e[0..|e|] == e;
    OccursContains(h, h, 0);
    OccursContains(e, e, 0);
    assert h[10] != e[10];
    assert !Contains(h, e);
  }

  /** The first pass over the example: both entries land on the first card. */
  lemma {:induction false} ExampleFirstPass(page: seq<Card>, sel: seq<Entry>, p1: seq<Card>)
    requires page == [Card(Some(1), "/products/h", false), Card(None, "/products/e", false)]
    requires sel == [Entry(1, ByHandle("e")), Entry(2, ByHandle("h"))]
    requires p1 == [Card(Some(2), "/products/h", true), Card(None, "/products/e", false)]
    ensures Reapplied(page, sel) == p1
    ensures !DistinctTargets(page, sel)
  {
    var c := ClearMarks(page);
    assert c == page;
    var m1 := [Card(Some(1), "/products/h", true), Card(None, "/products/e", false)];
    ExampleHandles(m1);
    MarkAllStep(c, sel, 0);
    MarkAllStep(c, sel, 1);
    assert sel[..0] == [] && sel[..2] == sel;
    assert MarkAll(c, sel[..1]) == MarkEntry(c, sel[0]) == m1;
    assert Locate(m1, sel[1]) == Some(0);
    assert Targets(c, sel)[0] == Some(0) && Targets(c, sel)[1] == Some(0);
  }

  /** The second pass over the example marks the second card, which the first left alone. */
  lemma {:induction false} ExampleSecondPass(p1: seq<Card>, sel: seq<Entry>)
    requires p1 == [Card(Some(2), "/products/h", true), Card(None, "/products/e", false)]
    requires sel == [Entry(1, ByHandle("e")), Entry(2, ByHandle("h"))]
    ensures Reapplied(p1, sel) != p1
  {
    var c2 := ClearMarks(p1);
    assert c2 == [Card(Some(2), "/products/h", false), Card(None, "/products/e", false)];
    ExampleHandles(c2);
    assert FirstWithId(c2, 1, 0) == None;
    var m2 := [Card(Some(2), "/products/h", false), Card(Some(1), "/products/e", true)];
    MarkAllStep(c2, sel, 0);
    MarkAllStep(c2, sel, 1);
    assert sel[..0] == [] && sel[..2] == sel;
    assert MarkAll(c2, sel[..1]) == MarkEntry(c2, sel[0]) == m2;
    assert MarkAll(c2, sel)[1].selected;
  }

  // ---------------------------------------------------------------------------
  // The bundle cart line

  /** One product of the bundle as the cart line lists it (`Item <n>` and
      `_item_<n>_variant`). */
  datatype BundleItem = BundleItem(number: nat, title: string, variantId: int)

  /** The `/cart/add.js` request for the bundle product. */
  datatype BundleRequest = BundleRequest(
    variantId: int,
    quantity: nat,
    bundleType: string,
    itemsLabel: string,
    items: seq<BundleItem>)

  /** The page's data for the selected products it knows, in selection order. */
  function KnownInfos(sel: seq<Entry>, known: map<int, ProductInfo>): (r: seq<ProductInfo>)
    ensures |r| <= |sel|
    ensures (forall i :: 0 <= i < |sel| ==> sel[i].id in known) ==> |r| == |sel|
    decreases |sel|
  {
    if sel == [] then []
    else
      var front := KnownInfos(sel[..|sel| - 1], known);
      var last := sel[|sel| - 1].id;
      if last in known then front + [known[last]] else front
  }

  /** Exactly the data of the selected products the page knows end up in the list. */
  lemma {:induction false} KnownInfosMembers(sel: seq<Entry>, known: map<int, ProductInfo>)
    ensures forall i :: 0 <= i < |sel| && sel[i].id in known ==> known[sel[i].id] in KnownInfos(sel, known)
    ensures forall x :: x in KnownInfos(sel, known) ==>
      exists i :: 0 <= i < |sel| && sel[i].id in known && known[sel[i].id] == x
    decreases |sel|
  {
    if sel != [] {
      var n := |sel| - 1;
      var front := sel[..n];
      KnownInfosMembers(front, known);
      assert forall i :: 0 <= i < n ==> front[i] == sel[i];
    }
  }

  /** When the page knows every selected product, the list is their data in selection
      order. */
  lemma {:induction false} KnownInfosAllKnown(sel: seq<Entry>, known: map<int, ProductInfo>)
    requires forall i :: 0 <= i < |sel| ==> sel[i].id in known
    ensures KnownInfos(sel, known) == seq(|sel|, i requires 0 <= i < |sel| => known[sel[i].id])
    decreases |sel|
  {
    if sel != [] {
      var n := |sel| - 1;
      var front := sel[..n];
      assert forall i :: 0 <= i < n ==> front[i] == sel[i];
      KnownInfosAllKnown(front, known);
    }
  }

  /** The items numbered from 1 without gaps. */
  function Numbered(infos: seq<ProductInfo>): (r: seq<BundleItem>)
    ensures |r| == |infos|
  {
    seq(|infos|, i requires 0 <= i < |infos| => BundleItem(i + 1, infos[i].title, infos[i].variantId))
  }

  /** The `forEach` that numbers the selected products the page has data for: the counter
      only moves for those, so the numbers run from 1 without gaps. */
  method NumberItems(sel: seq<Entry>, known: map<int, ProductInfo>) returns (items: seq<BundleItem>)
    ensures items == Numbered(KnownInfos(sel, known))
    ensures forall i :: 0 <= i < |items| ==> items[i].number == i + 1
  {
    items := [];
    var index := 1;
    var i := 0;
    while i < |sel|
      invariant 0 <= i <= |sel|
      invariant items == Numbered(KnownInfos(sel[..i], known))
      invariant index == |items| + 1
    {
      assert sel[..i + 1][..i] == sel[..i];
      var id := sel[i].id;
      if id in known {
        items := items + [BundleItem(index, known[id].title, known[id].variantId)];
        index := index + 1;
      }
      i := i + 1;
    }
    assert sel[..|sel|] == sel;
  }

  // ---------------------------------------------------------------------------
  // The page state

  /** The state of one bundle collection page: the bundle in force, the selection, what
      is known about the products, the backups, the grid and the add button. */
  class BundleSession {
    const config: BundleConfig
    var selected: seq<Entry>
    var known: map<int, ProductInfo>
    var backups: Backups
    var page: seq<Card>
    var commitEnabled: bool

    /** The selection is a map, the backups hold maps, and the add button is enabled
        exactly when the selection holds `maxProducts` products. */
    predicate Valid()
      reads this
    {
      && DistinctIds(selected)
      && BackupsDistinct(backups)
      && commitEnabled == (|selected| == config.maxProducts)
    }

    /** The state `init` starts from on a bundle collection page: the bundle's
        configuration, an empty selection, no product data, and the grid and the backups
        as found. */
    constructor (config: BundleConfig, page: seq<Card>, backups: Backups)
      requires BackupsDistinct(backups)
      ensures Valid()
      ensures this.config == config
      ensures selected == [] && known == map[] && this.backups == backups && this.page == page
    {
      this.config := config;
      selected := [];
      known := map[];
      this.backups := backups;
      this.page := page;
      commitEnabled := config.maxProducts == 0;
    }

    /** The product setup of `setupProducts` for the card at `index`, given the product
        document its link leads to (`None` when it could not be fetched). */
    method SetupCard(index: nat, product: Option<Product>) returns (eligible: bool)
      requires Valid() && index < |page|
      modifies this
      ensures Valid()
      ensures eligible <==>
        && HandleFromHref(old(page[index].href)).Some?
        && product.Some?
        && CheapestEligible(product.value.variants, config.maxVariantPrice).Some?
      ensures !eligible ==> known == old(known) && page == old(page)
      ensures eligible ==>
        var p := product.value;
        var v := p.variants[CheapestEligible(p.variants, config.maxVariantPrice).value];
        && known == old(known)[p.id := ProductInfo(p.title, v.id, HandleFromHref(old(page[index].href)).value)]
        && page == old(page)[index := Card(Some(p.id), "", old(page[index].selected) || Has(selected, p.id))]
      ensures selected == old(selected) && backups == old(backups) && commitEnabled == old(commitEnabled)
    {
      var handle := HandleFromHref(page[index].href);
      if handle.None? || product.None? {
        return false;
      }
      var p := product.value;
      var cheapest := CheapestEligible(p.variants, config.maxVariantPrice);
      if cheapest.None? {
        return false;
      }
      known := known[p.id := ProductInfo(p.title, p.variants[cheapest.value].id, handle.value)];
      page := page[index := Card(Some(p.id), "", page[index].selected || Has(selected, p.id))];
      eligible := true;
    }

    /** `toggleProduct` for the product `id` shown by the card at `index`. */
    method ToggleProduct(id: int, index: nat) returns (outcome: ToggleOutcome, almostThere: bool)
      requires Valid() && index < |page|
      modifies this
      ensures Valid()
      ensures (selected, outcome) == ToggleSelection(old(selected), id, known, config.maxProducts)
      ensures almostThere <==> AlmostThere(outcome)
      ensures page == old(page)[index := old(page[index]).(selected :=
        if outcome.AtCapacity? then old(page[index].selected) else outcome.Added?)]
      ensures old(|selected|) <= config.maxProducts ==> |selected| <= config.maxProducts
      ensures known == old(known) && backups == old(backups)
    {
      var r := ToggleSelection(selected, id, known, config.maxProducts);
      selected, outcome := r.0, r.1;
      if outcome.Removed? {
        page := page[index := page[index].(selected := false)];
      } else if outcome.Added? {
        page := page[index := page[index].(selected := true)];
      }
      almostThere := outcome.Added? && 0 < outcome.remaining <= 3;
      commitEnabled := |selected| == config.maxProducts;
    }

    /** `saveSelectionSnapshot` at time `now`. */
    method Save(now: int)
      requires Valid()
      modifies this
      ensures Valid()
      ensures backups == Saved(old(backups), selected, now)
      ensures selected == old(selected) && page == old(page) && known == old(known)
      ensures commitEnabled == old(commitEnabled)
    {
      backups := Saved(backups, selected, now);
    }

    /** The two `beforeunload` handlers: the snapshot is always saved, and a non-empty
        selection is also written to the local record. */
    method Unload(now: int)
      requires Valid()
      modifies this
      ensures Valid()
      ensures backups == if |selected| > 0 then Saved(old(backups), selected, now).(localEntries := Some(selected))
                         else Saved(old(backups), selected, now)
      ensures selected == old(selected) && page == old(page) && known == old(known)
      ensures commitEnabled == old(commitEnabled)
    {
      Save(now);
      if |selected| > 0 {
        backups := backups.(localEntries := Some(selected));
      }
    }

    /** The loop that takes the selected mark off every card. */
    method ClearPage()
      modifies this
      ensures page == ClearMarks(old(page))
      ensures selected == old(selected) && known == old(known) && backups == old(backups)
      ensures commitEnabled == old(commitEnabled)
    {
      var i := 0;
      while i < |page|
        invariant 0 <= i <= |page| == |old(page)|
        invariant forall j :: 0 <= j < i ==> page[j] == old(page)[j].(selected := false)
        invariant forall j :: i <= j < |page| ==> page[j] == old(page)[j]
        invariant selected == old(selected) && known == old(known) && backups == old(backups)
        invariant commitEnabled == old(commitEnabled)
      {
        page := page[i := page[i].(selected := false)];
        i := i + 1;
      }
    }

    /** The body of `reapplySelections` once it has decided to re-mark: clear every mark,
        mark each entry's card in selection order, then update the progress. */
    method MarkPage()
      requires DistinctIds(selected) && BackupsDistinct(backups)
      modifies this
      ensures Valid()
      ensures page == Reapplied(old(page), selected)
      ensures selected == old(selected) && known == old(known) && backups == old(backups)
    {
      ClearPage();
      ghost var cleared := page;
      var k := 0;
      while k < |selected|
        invariant 0 <= k <= |selected|
        invariant page == MarkAll(cleared, selected[..k])
        invariant selected == old(selected) && known == old(known) && backups == old(backups)
      {
        MarkAllStep(cleared, selected, k);
        var e := selected[k];
        var found := Locate(page, e);
        if found.Some? {
          page := page[found.value := Card(Some(e.id), page[found.value].href, true)];
        }
        k := k + 1;
      }
      assert selected[..|selected|] == selected;
      commitEnabled := |selected| == config.maxProducts;
    }

    /** `restoreSelectionSnapshot` at time `now`: the first usable source replaces the
        selection (the local record is removed once read) and the grid is re-marked. */
    method Restore(now: int) returns (source: Option<Source>)
      requires Valid()
      modifies this
      ensures Valid()
      ensures source == RestoreChoice(old(backups), now)
      ensures source.Some? ==> selected == Content(old(backups), source.value)
      ensures source.Some? ==> page == Reapplied(old(page), selected)
      ensures source.None? ==> selected == old(selected) && page == old(page) && commitEnabled == old(commitEnabled)
      ensures backups == if source == Some(FromLocal) then old(backups).(localEntries := None) else old(backups)
      ensures known == old(known)
    {
      source := RestoreChoice(backups, now);
      if source.Some? {
        var from := source.value;
        selected := Content(backups, from);
        if from == FromLocal {
          backups := backups.(localEntries := None);
        }
        // The nested re-apply re-marks: the selection is non-empty or the snapshot is.
        assert !(|selected| == 0 && Usable(backups, FromSnapshot, now));
        MarkPage();
      }
    }

    /** The window backup step of `init`: its entries become the selection and the grid is
        re-marked. */
    method RestoreWindow()
      requires Valid()
      modifies this
      ensures Valid()
      ensures selected == old(backups).windowEntries
      ensures page == Reapplied(old(page), selected)
      ensures known == old(known) && backups == old(backups)
    {
      selected := backups.windowEntries;
      MarkPage();
    }

    /** `reapplySelections`: with an empty selection and a non-empty snapshot it restores;
        otherwise it re-marks the grid. */
    method Reapply(now: int)
      requires Valid()
      modifies this
      ensures Valid()
      ensures if |old(selected)| == 0 && Usable(old(backups), FromSnapshot, now)
              then selected == old(backups).snapshot.value
              else selected == old(selected)
      ensures page == Reapplied(old(page), selected)
      ensures known == old(known) && backups == old(backups)
    {
      if |selected| == 0 && Usable(backups, FromSnapshot, now) {
        var _ := Restore(now);
      } else {
        MarkPage();
      }
    }

    /** `addBundleToCart`, given the bundle product's variant ids (`None` when its document
        could not be fetched) and whether the cart accepted the line. */
    method AddToCart(bundleVariants: Option<seq<int>>, cartAccepted: bool)
      returns (request: Option<BundleRequest>, added: bool)
      requires Valid()
      modifies this
      ensures Valid()
      ensures request.Some? <==>
        |old(selected)| == config.maxProducts && bundleVariants.Some? && |bundleVariants.value| > 0
      ensures request.Some? ==> old(commitEnabled) && request.value == BundleRequest(
        bundleVariants.value[0], 1, config.bundleType, NatToString(config.maxProducts) + " products",
        Numbered(KnownInfos(old(selected), known)))
      ensures added <==> request.Some? && cartAccepted
      ensures added ==> selected == [] && page == ClearMarks(old(page))
      ensures !added ==> selected == old(selected) && page == old(page)
      ensures |old(selected)| != config.maxProducts ==> commitEnabled == old(commitEnabled)
      ensures known == old(known) && backups == old(backups)
    {
      if |selected| != config.maxProducts {
        return None, false;
      }
      commitEnabled := false;
      if bundleVariants.None? || |bundleVariants.value| == 0 {
        commitEnabled := true;
        return None, false;
      }
      var items := NumberItems(selected, known);
      request := Some(BundleRequest(bundleVariants.value[0], 1, config.bundleType,
                                    NatToString(config.maxProducts) + " products", items));
      if cartAccepted {
        selected := [];
        ClearPage();
        commitEnabled := config.maxProducts == 0;
        added := true;
      } else {
        commitEnabled := true;
        added := false;
      }
    }
  }

  // ---------------------------------------------------------------------------
  // Start-up

  lemma {:induction false} ClearMarksIdempotent(page: seq<Card>)
    ensures ClearMarks(ClearMarks(page)) == ClearMarks(page)
  {
  }

  /** `init` at time `now`: off a bundle collection page nothing starts; on one, a session
      starts with an empty selection, the restore ladder runs, and the window backup is
      taken when the selection is still empty. The grid is re-marked whenever something
      was restored. */
  method Init(path: string, page: seq<Card>, backups: Backups, now: int)
    returns (session: Option<BundleSession>, source: Option<Source>)
    requires BackupsDistinct(backups)
    ensures session.None? <==> CurrentBundleConfig(path).None?
    ensures session.None? ==> source.None?
    ensures session.Some? ==> fresh(session.value) && session.value.Valid()
    ensures session.Some? ==>
      var s := session.value;
      && s.config == CurrentBundleConfig(path).value
      && source == RestoreChoice(backups, now)
      && s.selected == StartSelection(backups, now)
      && s.page == (if source.None? then page else Reapplied(page, s.selected))
      && s.known == map[]
      && s.backups == (if source == Some(FromLocal) then backups.(localEntries := None) else backups)
  {
    match CurrentBundleConfig(path)
    case None =>
      session, source := None, None;
    case Some(c) =>
      var s := new BundleSession(c, page, backups);
      source := s.Restore(now);
      if |s.selected| == 0 && |s.backups.windowEntries| > 0 {
        ClearMarksIdempotent(page);
        s.RestoreWindow();
      }
      session := Some(s);
  }
}
