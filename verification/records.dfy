/**
 * The `calendarEvents` value of both stores: a JavaScript `Record<string, string>`
 * from destination name to calendar event id.
 *
 * A JavaScript object keeps its own string keys in insertion order, and
 * `Object.keys(...).find(...)` returns the first matching key in that order, so
 * the record is modelled as its entries in key order. `View` forgets the order
 * and gives the plain map the rest of the application reads.
 */
module Records {

  datatype Option<T> = None | Some(value: T)

  /** One own property of the record: destination name -> event id. */
  datatype Entry = Entry(name: string, eventId: string)

  /** The record's own properties, in key order. */
  type Record = seq<Entry>

  /** `name in record` for an own property: some entry carries that name. */
  predicate Has(r: Record, name: string) {
    r != [] && (r[0].name == name || Has(r[1..], name))
  }

  /** An object never holds the same key twice. */
  predicate DistinctNames(r: Record) {
    r == [] || (!Has(r[1..], r[0].name) && DistinctNames(r[1..]))
  }

  /** The record as a map; the first entry for a name wins, which matters only without DistinctNames. */
  function View(r: Record): (m: map<string, string>)
    ensures forall k :: k in m <==> Has(r, k)
  {
    if r == [] then map[] else View(r[1..])[r[0].name := r[0].eventId]
  }

  /** `record[name]`: the stored id, or `undefined`. */
  function Lookup(r: Record, name: string): (v: Option<string>)
    ensures v.Some? <==> name in View(r)
    ensures v.Some? ==> v.value == View(r)[name]
  {
    if r == [] then None
    else if r[0].name == name then Some(r[0].eventId)
    else Lookup(r[1..], name)
  }

  /**
   * `{ ...record, [name]: id }`: an existing key keeps its place and takes the
   * new value; a new key goes last.
   */
  function Put(r: Record, name: string, id: string): (r': Record)
    ensures View(r') == View(r)[name := id]
    ensures forall k :: Has(r', k) <==> Has(r, k) || k == name
    ensures !Has(r, name) ==> r' == r + [Entry(name, id)]
    ensures DistinctNames(r) ==> DistinctNames(r')
  {
    if r == [] then [Entry(name, id)]
    else if r[0].name == name then [Entry(name, id)] + r[1..]
    else
      assert r[1..] + [Entry(name, id)] == (r + [Entry(name, id)])[1..];
      [r[0]] + Put(r[1..], name, id)
  }

  /** `const { [name]: removed, ...rest } = record; rest`: every other key, in its order. */
  function Delete(r: Record, name: string): (r': Record)
    ensures View(r') == View(r) - {name}
    ensures forall k :: Has(r', k) <==> Has(r, k) && k != name
    ensures !Has(r, name) ==> r' == r
    ensures DistinctNames(r) ==> DistinctNames(r')
  {
    if r == [] then []
    else if r[0].name == name then Delete(r[1..], name)
    else [r[0]] + Delete(r[1..], name)
  }

  /** Position of the first entry whose value is `id`, or `|r|` when there is none. */
  function FirstWithEvent(r: Record, id: string): (i: nat)
    ensures i <= |r|
    ensures i < |r| ==> r[i].eventId == id
    ensures forall j :: 0 <= j < i ==> r[j].eventId != id
  {
    if r == [] then 0
    else if r[0].eventId == id then 0
    else 1 + FirstWithEvent(r[1..], id)
  }

  /** JavaScript truthiness of a string that may be `undefined`/`null`: present and non-empty. */
  predicate Truthy(s: Option<string>) {
    s.Some? && s.value != ""
  }

  /**
   * The `removeEvent` updater: find the first key whose value is `id`; if that
   * key is truthy, drop it, otherwise return the record as it was. A match
   * stored under the empty name is therefore never removed.
   */
  function RemoveEvent(r: Record, id: string): (r': Record)
    ensures DistinctNames(r) ==> DistinctNames(r')
    ensures (forall i :: 0 <= i < |r| ==> r[i].eventId != id) ==> r' == r
    ensures DistinctNames(r) ==>
      forall i :: 0 <= i < |r| && r[i].eventId == id && (forall j :: 0 <= j < i ==> r[j].eventId != id) ==>
        r' == if r[i].name != "" then r[..i] + r[i+1..] else r
    ensures DistinctNames(r) ==>
      View(r') == View(r) ||
      exists k :: k in View(r) && k != "" && View(r)[k] == id && View(r') == View(r) - {k}
  {
    var i := FirstWithEvent(r, id);
    if i < |r| && r[i].name != "" then
      if DistinctNames(r) then
        DeleteAt(r, i);
        ViewAt(r, i);
        Delete(r, r[i].name)
      else Delete(r, r[i].name)
    else r
  }

  /** The entry at any position is an own property of the record. */
  lemma {:induction false} HasAt(r: Record, i: nat)
    requires i < |r|
    ensures Has(r, r[i].name)
  {
    if i > 0 {
      HasAt(r[1..], i - 1);
    }
  }

  /** With distinct names, deleting the name at position `i` removes exactly that entry. */
  lemma {:induction false} DeleteAt(r: Record, i: nat)
    requires DistinctNames(r) && i < |r|
    ensures Delete(r, r[i].name) == r[..i] + r[i+1..]
  {
    if i == 0 {
      DeleteFirst(r);
    } else {
      var tail := r[1..];
      assert tail[i-1] == r[i];
      HasAt(tail, i - 1);
      assert Delete(r, r[i].name) == [r[0]] + Delete(tail, r[i].name);
      DeleteAt(tail, i - 1);
      SpliceAfterHead(r, i);
    }
  }

  /** With distinct names, deleting the first entry's name leaves the rest. */
  lemma DeleteFirst(r: Record)
    requires DistinctNames(r) && r != []
    ensures Delete(r, r[0].name) == r[..0] + r[1..]
  {
    assert r[..0] + r[1..] == r[1..];
  }

  /** Removing position `i` of `r` is keeping the head and removing position `i - 1` of the tail. */
  lemma SpliceAfterHead(r: Record, i: nat)
    requires 0 < i < |r|
    ensures [r[0]] + (r[1..][..i-1] + r[1..][i..]) == r[..i] + r[i+1..]
  {
    assert [r[0]] + r[1..][..i-1] == r[..i];
    assert r[1..][i..] == r[i+1..];
  }

  /** With distinct names, every entry is what the map view shows for its name. */
  lemma {:induction false} ViewAt(r: Record, i: nat)
    requires DistinctNames(r) && i < |r|
    ensures r[i].name in View(r) && View(r)[r[i].name] == r[i].eventId
  {
    if i > 0 {
      HasAt(r[1..], i - 1);
      ViewAt(r[1..], i - 1);
    }
  }

  /** With distinct names, an id that no key of the map view maps to appears in no entry. */
  lemma NoLinkToEvent(r: Record, id: string)
    requires DistinctNames(r)
    ensures (forall k :: k in View(r) ==> View(r)[k] != id) ==> forall i :: 0 <= i < |r| ==> r[i].eventId != id
  {
    forall i | 0 <= i < |r|
      ensures r[i].name in View(r) && View(r)[r[i].name] == r[i].eventId
    {
      ViewAt(r, i);
    }
  }

  /** Re-linking a name that is already a key rewrites its value where it stands; no entry moves. */
  lemma {:induction false} PutExisting(r: Record, i: nat, id: string)
    requires DistinctNames(r) && i < |r|
    ensures Put(r, r[i].name, id) == r[i := Entry(r[i].name, id)]
  {
    if i > 0 {
      HasAt(r[1..], i - 1);
      assert r[0].name != r[i].name;
      PutExisting(r[1..], i - 1, id);
      assert r[1..][i - 1 := Entry(r[i].name, id)] == r[i := Entry(r[i].name, id)][1..];
    }
  }

  /** Adding a link for a name that had none and then removing it by name restores the record exactly, order included. */
  lemma {:induction false} PutThenDelete(r: Record, name: string, id: string)
    requires !Has(r, name)
    ensures Delete(Put(r, name, id), name) == r
  {
    if r != [] {
      PutThenDelete(r[1..], name, id);
    }
  }

  /** Removing a name twice is the same as removing it once. */
  lemma DeleteIdempotent(r: Record, name: string)
    ensures Delete(Delete(r, name), name) == Delete(r, name)
  {
  }

  /** Removing by event id never touches a link to a different event. */
  lemma {:induction false} RemoveEventKeepsOtherEvents(r: Record, id: string, k: string)
    requires DistinctNames(r)
    requires k in View(r) && View(r)[k] != id
    ensures k in View(RemoveEvent(r, id)) && View(RemoveEvent(r, id))[k] == View(r)[k]
  {
    var i := FirstWithEvent(r, id);
    if i < |r| && r[i].name != "" {
      ViewAt(r, i);
    }
  }
}
