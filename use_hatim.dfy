/** `useHatim`: the in-memory list of the user's schedules (`hatims`), the four
    ways it changes after a backend call, and the page statistics of a
    participant list. Each backend call is a parameter that takes the
    arguments the source passes and gives the call's outcome; the signed-in
    user is given as its `id`, or None when nobody is signed in. */
module UseHatim {
  import opened Wrappers
  import opened FormatUtils

  /** A field value of a schedule record. */
  datatype Value = Text(s: string) | Number(n: int) | Roster(participants: seq<Participant>)

  /** A schedule record as the backend returns it: field name to value.
      Object spread `{...h, ...updates}` is the map union `h + updates`. */
  type Record = map<string, Value>

  /** How a backend call ended: with its data, or by throwing. */
  datatype Remote<T> = Done(value: T) | Failed

  /** `h.id === id` */
  predicate HasId(h: Record, id: Value) {
    "id" in h && h["id"] == id
  }

  /** `data.id`, None when the record has no id. */
  function IdOf(h: Record): Option<Value> {
    if "id" in h then Some(h["id"]) else None
  }

  // ---------------------------------------------------------------------------
  // The list rules
  // ---------------------------------------------------------------------------

  /** `findIndex(h => h.id === id)`: the first position holding `id`, or -1. */
  function IndexOf(hs: seq<Record>, id: Value): (idx: int)
    ensures -1 <= idx < |hs|
    ensures idx == -1 <==> forall k :: 0 <= k < |hs| ==> !HasId(hs[k], id)
    ensures idx >= 0 ==> HasId(hs[idx], id) && forall k :: 0 <= k < idx ==> !HasId(hs[k], id)
  {
    if hs == [] then -1
    else if HasId(hs[0], id) then 0
    else
      var j := IndexOf(hs[1..], id);
      if j == -1 then -1 else j + 1
  }

  /** `{...h, ...updates}`: every field of `updates` wins, every other field of
      `h` is kept, and no other field appears. */
  function Merge(h: Record, updates: Record): (r: Record)
    ensures r.Keys == h.Keys + updates.Keys
    ensures forall k :: k in updates ==> r[k] == updates[k]
    ensures forall k :: k in h && k !in updates ==> r[k] == h[k]
  {
    h + updates
  }

  /** The list after a successful update: the first record with `id` merged
      with `updates`. */
  function Updated(hs: seq<Record>, id: Value, updates: Record): (r: seq<Record>)
    ensures |r| == |hs|
    ensures IndexOf(hs, id) == -1 ==> r == hs
  {
    var idx := IndexOf(hs, id);
    if idx == -1 then hs else hs[idx := Merge(hs[idx], updates)]
  }

  /** `filter(h => h.id !== id)` */
  function Without(hs: seq<Record>, id: Value): (r: seq<Record>)
    ensures |r| <= |hs|
    ensures forall k :: 0 <= k < |r| ==> !HasId(r[k], id)
  {
    if hs == [] then []
    else (if HasId(hs[0], id) then [] else [hs[0]]) + Without(hs[1..], id)
  }

  /** `name || 'Yeni Hatim'`: a missing or empty name gets the default. */
  function DefaultName(name: Option<string>): (r: string)
    ensures r != ""
    ensures name.Some? && name.value != "" ==> r == name.value
    ensures name.None? || name.value == "" ==> r == "Yeni Hatim"
  {
    if name.None? || name.value == "" then "Yeni Hatim" else name.value
  }

  /** The record `createHatim` sends: no dates and no participants yet. */
  function NewHatim(name: Option<string>, userId: Value, created: string): (h: Record)
    ensures h.Keys == {"name", "startDate", "endDate", "participants", "created", "user_id"}
    ensures h["name"] == Text(DefaultName(name)) && h["user_id"] == userId
    ensures h["startDate"] == Text("") && h["endDate"] == Text("")
    ensures h["participants"] == Roster([])
    ensures h["created"] == Text(created)
    ensures "id" !in h
  {
    map["name" := Text(DefaultName(name)), "startDate" := Text(""), "endDate" := Text(""),
        "participants" := Roster([]), "created" := Text(created), "user_id" := userId]
  }

  // ---------------------------------------------------------------------------
  // The store
  // ---------------------------------------------------------------------------

  /** The module-level `hatims` ref. Each operation changes it only after its
      backend call succeeds. */
  class HatimStore {
    var hatims: seq<Record>

    constructor ()
      ensures hatims == []
    {
      hatims := [];
    }

    /** `loadAll`: without a signed-in user nothing happens; otherwise the
        fetched list replaces the old one, unless the fetch fails. `userId`
        is the signed-in user's `id`, None when nobody is signed in. */
    method LoadAll(userId: Option<Value>, getAllByUser: Value -> Remote<seq<Record>>)
      modifies this
      ensures userId.Some? && getAllByUser(userId.value).Done? ==>
                hatims == getAllByUser(userId.value).value
      ensures userId.None? || getAllByUser(userId.value).Failed? ==> hatims == old(hatims)
    {
      if userId.None? {
        return;
      }
      var fetched := getAllByUser(userId.value);
      if fetched.Done? {
        hatims := fetched.value;
      }
    }

    /** `createHatim`: sends `NewHatim` for the signed-in user and puts the
        stored record in front; gives its id, or None (null) without a user
        or when the insert fails. `userId` is the signed-in user's `id`, None
        when nobody is signed in; `now` is the creation timestamp. */
    method CreateHatim(name: Option<string>, userId: Option<Value>, now: string,
                       create: Record -> Remote<Record>) returns (newId: Option<Value>)
      modifies this
      ensures userId.None? ==> newId.None? && hatims == old(hatims)
      ensures userId.Some? && create(NewHatim(name, userId.value, now)).Failed? ==>
                newId.None? && hatims == old(hatims)
      ensures userId.Some? && create(NewHatim(name, userId.value, now)).Done? ==>
                var data := create(NewHatim(name, userId.value, now)).value;
                hatims == [data] + old(hatims) && newId == IdOf(data)
    {
      if userId.None? {
        return None;
      }
      var sent := NewHatim(name, userId.value, now);
      var outcome := create(sent);
      if outcome.Failed? {
        return None;
      }
      hatims := [outcome.value] + hatims;
      newId := IdOf(outcome.value);
    }

    /** `updateHatim`: after the backend accepts `updates`, the first record
        with `id` is replaced by its merge with `updates`. */
    method UpdateHatim(id: Value, updates: Record, update: (Value, Record) -> Remote<()>)
      modifies this
      ensures update(id, updates).Done? ==> hatims == Updated(old(hatims), id, updates)
      ensures update(id, updates).Failed? ==> hatims == old(hatims)
    {
      var outcome := update(id, updates);
      if outcome.Failed? {
        return;
      }
      var idx := IndexOf(hatims, id);
      if idx != -1 {
        hatims := hatims[idx := Merge(hatims[idx], updates)];
      }
    }

    /** `deleteHatim`: after the backend deletes `id`, every record with that
        id leaves the list. */
    method DeleteHatim(id: Value, delete: Value -> Remote<()>)
      modifies this
      ensures delete(id).Done? ==> hatims == Without(old(hatims), id)
      ensures delete(id).Failed? ==> hatims == old(hatims)
    {
      var outcome := delete(id);
      if outcome.Done? {
        hatims := Without(hatims, id);
      }
    }
  }

  // ---------------------------------------------------------------------------
  // What the list rules keep
  // ---------------------------------------------------------------------------

  /** An update touches only the first record with `id`, which becomes its
      merge with `updates`; the length and all other records stay. */
  lemma UpdatedEntries(hs: seq<Record>, id: Value, updates: Record)
    ensures |Updated(hs, id, updates)| == |hs|
    ensures forall k :: 0 <= k < |hs| ==>
              Updated(hs, id, updates)[k] ==
                if HasId(hs[k], id) && (forall j :: 0 <= j < k ==> !HasId(hs[j], id))
                then Merge(hs[k], updates) else hs[k]
  {
    var idx := IndexOf(hs, id);
    forall k | 0 <= k < |hs|
      ensures Updated(hs, id, updates)[k] ==
                if HasId(hs[k], id) && (forall j :: 0 <= j < k ==> !HasId(hs[j], id))
                then Merge(hs[k], updates) else hs[k]
    {
      if idx != -1 && k > idx {
        assert !(forall j :: 0 <= j < k ==> !HasId(hs[j], id)) by { assert HasId(hs[idx], id); }
      }
    }
  }

  /** Updating an id that no record holds changes nothing. */
  lemma UpdateAbsentId(hs: seq<Record>, id: Value, updates: Record)
    requires forall k :: 0 <= k < |hs| ==> !HasId(hs[k], id)
    ensures Updated(hs, id, updates) == hs
  {
  }

  /** Applying the same update twice is applying it once, when the update
      does not move the record to another id. */
  lemma UpdateIdempotent(hs: seq<Record>, id: Value, updates: Record)
    requires "id" !in updates || updates["id"] == id
    ensures Updated(Updated(hs, id, updates), id, updates) == Updated(hs, id, updates)
  {
    var idx := IndexOf(hs, id);
    if idx != -1 {
      var once := Updated(hs, id, updates);
      var m := Merge(hs[idx], updates);
      assert HasId(m, id);
      assert once[idx] == m;
      assert forall k :: 0 <= k < idx ==> once[k] == hs[k];
      IndexOfFirst(once, id, idx);
      assert Merge(m, updates) == m;
    }
  }

  /** The first record holding `id` is the one `findIndex` finds. */
  lemma IndexOfFirst(hs: seq<Record>, id: Value, i: nat)
    requires i < |hs| && HasId(hs[i], id)
    requires forall k :: 0 <= k < i ==> !HasId(hs[k], id)
    ensures IndexOf(hs, id) == i
  {
    var j := IndexOf(hs, id);
    assert j != -1 by { assert HasId(hs[i], id); }
  }

  /** Filtering keeps the order: it distributes over concatenation. */
  lemma {:induction false} WithoutAppend(a: seq<Record>, b: seq<Record>, id: Value)
    ensures Without(a + b, id) == Without(a, id) + Without(b, id)
    decreases |a|
  {
    if a == [] {
      assert a + b == b;
    } else {
      var head := if HasId(a[0], id) then [] else [a[0]];
      assert (a + b)[0] == a[0];
      assert (a + b)[1..] == a[1..] + b;
      WithoutAppend(a[1..], b, id);
      assert Without(a + b, id) == head + (Without(a[1..], id) + Without(b, id));
      assert Without(a, id) == head + Without(a[1..], id);
      ConcatAssoc(head, Without(a[1..], id), Without(b, id));
    }
  }

  lemma ConcatAssoc(p: seq<Record>, q: seq<Record>, r: seq<Record>)
    ensures p + (q + r) == (p + q) + r
  {
  }

  /** Filtering drops only records with `id`: every other record occurs as
      often as before. */
  lemma {:induction false} WithoutKeepsOthers(hs: seq<Record>, id: Value, h: Record)
    requires !HasId(h, id)
    ensures multiset(Without(hs, id))[h] == multiset(hs)[h]
    decreases |hs|
  {
    if hs != [] {
      var rest := hs[1..];
      var head := if HasId(hs[0], id) then [] else [hs[0]];
      WithoutKeepsOthers(rest, id, h);
      assert hs == [hs[0]] + rest;
      assert multiset(hs) == multiset([hs[0]]) + multiset(rest);
      assert multiset(Without(hs, id)) == multiset(head) + multiset(Without(rest, id));
      assert multiset(head)[h] == multiset([hs[0]])[h];
    }
  }

  /** Deleting an id that no record holds changes nothing. */
  lemma {:induction false} DeleteAbsentId(hs: seq<Record>, id: Value)
    requires forall k :: 0 <= k < |hs| ==> !HasId(hs[k], id)
    ensures Without(hs, id) == hs
    decreases |hs|
  {
    if hs != [] {
      DeleteAbsentId(hs[1..], id);
    }
  }

  /** Deleting twice is deleting once. */
  lemma DeleteIdempotent(hs: seq<Record>, id: Value)
    ensures Without(Without(hs, id), id) == Without(hs, id)
  {
    DeleteAbsentId(Without(hs, id), id);
  }

  /** Deleting a record just created, whose id the list did not hold yet,
      gives back the list as it was before the creation. */
  lemma DeleteUndoesCreate(hs: seq<Record>, data: Record, id: Value)
    requires HasId(data, id)
    requires forall k :: 0 <= k < |hs| ==> !HasId(hs[k], id)
    ensures Without([data] + hs, id) == hs
  {
    assert ([data] + hs)[1..] == hs;
    DeleteAbsentId(hs, id);
  }

  /** Updating a record just created changes the front of the list only. */
  lemma UpdateAfterCreate(hs: seq<Record>, data: Record, id: Value, updates: Record)
    requires HasId(data, id)
    ensures Updated([data] + hs, id, updates) == [Merge(data, updates)] + hs
  {
  }

  /** Deleting after updating is deleting, when the update keeps the id. */
  lemma DeleteAfterUpdate(hs: seq<Record>, id: Value, updates: Record)
    requires "id" !in updates || updates["id"] == id
    ensures Without(Updated(hs, id, updates), id) == Without(hs, id)
  {
    var idx := IndexOf(hs, id);
    if idx != -1 {
      var once := Updated(hs, id, updates);
      assert hs == hs[..idx] + [hs[idx]] + hs[idx + 1..];
      assert once == hs[..idx] + [Merge(hs[idx], updates)] + hs[idx + 1..];
      WithoutAppend(hs[..idx] + [hs[idx]], hs[idx + 1..], id);
      WithoutAppend(hs[..idx], [hs[idx]], id);
      WithoutAppend(hs[..idx] + [Merge(hs[idx], updates)], hs[idx + 1..], id);
      WithoutAppend(hs[..idx], [Merge(hs[idx], updates)], id);
      assert Without([hs[idx]], id) == [] by { assert ([hs[idx]])[1..] == []; }
      assert Without([Merge(hs[idx], updates)], id) == [] by {
        assert ([Merge(hs[idx], updates)])[1..] == [];
      }
    }
  }

  // ---------------------------------------------------------------------------
  // calculateStats
  // ---------------------------------------------------------------------------

  datatype Stats = Stats(total: int, remaining: int, percentage: real)

  /** `calculateStats`: the pages handed out, what is left of `maxPages` (not
      clamped at zero) and the share as a percentage, as an exact real. A
      null participant list counts as empty. */
  function CalculateStats(participants: Option<seq<Participant>>, maxPages: int): (s: Stats)
    requires maxPages > 0
    ensures s.total == TotalPages(if participants.Some? then participants.value else [])
    ensures s.total + s.remaining == maxPages
    ensures s.remaining < 0 <==> s.total > maxPages
    ensures s.percentage * maxPages as real == 100.0 * s.total as real
    ensures s.percentage == 100.0 <==> s.remaining == 0
  {
    var total := TotalPages(if participants.Some? then participants.value else []);
    PercentageOfMax(total, maxPages);
    Stats(total, maxPages - total, (total as real / maxPages as real) * 100.0)
  }

  /** `(total / MAX_PAGES) * 100` times `MAX_PAGES` is `100 * total`, and it
      is 100 exactly when the total is `MAX_PAGES`. */
  lemma PercentageOfMax(total: int, maxPages: int)
    requires maxPages > 0
    ensures var p := (total as real / maxPages as real) * 100.0;
            && p * maxPages as real == 100.0 * total as real
            && (p == 100.0 <==> total == maxPages)
  {
    var t := total as real;
    var m := maxPages as real;
    var q := t / m;
    assert q * m == t;
    assert (q * 100.0) * m == 100.0 * (q * m);
    if q * 100.0 == 100.0 {
      assert q == 1.0;
      assert t == m;
    }
    if total == maxPages {
      assert q == 1.0;
    }
  }

  /** When every page count is given, nothing remains exactly when the
      group's first day ends on page `maxPages`, and the remaining count is
      the gap between that last page and `maxPages`. */
  lemma RemainingMatchesDayZero(ps: seq<Participant>, maxPages: int)
    requires maxPages > 0 && |ps| > 0 && ps[|ps| - 1].pages.Some?
    ensures CalculateStats(Some(ps), maxPages).remaining
              == maxPages - DayRange(ps, |ps| - 1, 0).value.end
  {
    DayZeroEndsAtTotal(ps);
  }
}
