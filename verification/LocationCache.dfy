/**
 * The proxy's location cache: least recently used eviction with a time to live per entry. The map and
 * the list are one store, a hit is never stale, and a live key is only lost to `cap` other keys.
 */
module LocationCaches {

  datatype Location = Location(tenantName: string, instanceUrl: string, tenantId: nat, stableUntil: int)

  datatype Entry = Entry(key: string, value: Location, expires: int)

  datatype Op =
    | Get(key: string)
    | Set(key: string, value: Location, ttl: int)
    | Delete(key: string)

  const DEFAULT_CAPACITY: nat := 1024
  const DEFAULT_TTL: int := 30_000_000_000  // nanoseconds

  // ----- the list as a value, most recently used first -----

  /** Where `key` is, or the length of the list. */
  function Find(l: seq<Entry>, key: string): (i: nat)
    ensures i <= |l|
    ensures i < |l| ==> l[i].key == key
    ensures forall j :: 0 <= j < i ==> l[j].key != key
  {
    if l == [] then 0 else if l[0].key == key then 0 else 1 + Find(l[1..], key)
  }

  function Drop<T>(l: seq<T>, i: nat): (r: seq<T>)
    requires i < |l|
    ensures |r| == |l| - 1
  {
    l[..i] + l[i + 1..]
  }

  predicate Hits(l: seq<Entry>, key: string, now: int) {
    var i := Find(l, key);
    i < |l| && now <= l[i].expires
  }

  function Evicted<T>(l: seq<T>, cap: nat): seq<T> {
    if |l| >= cap && l != [] then l[..|l| - 1] else l
  }

  function Next(l: seq<Entry>, cap: nat, op: Op, now: int): seq<Entry> {
    var i := Find(l, op.key);
    match op
    case Get(key) =>
      if i == |l| then l
      else if now > l[i].expires then Drop(l, i)
      else [l[i]] + Drop(l, i)
    case Set(key, value, ttl) =>
      [Entry(key, value, now + ttl)] + if i < |l| then Drop(l, i) else Evicted(l, cap)
    case Delete(key) => if i == |l| then l else Drop(l, i)
  }

  // ----- the cache object -----

  class Element {
    const key: string
    var value: Location
    var expires: int

    constructor (key: string, value: Location, expires: int)
      ensures this.key == key && this.value == value && this.expires == expires
    {
      this.key, this.value, this.expires := key, value, expires;
    }
  }

  ghost function EntriesOf(es: seq<Element>): (r: seq<Entry>)
    reads es
    ensures |r| == |es|
    ensures forall i :: 0 <= i < |es| ==> r[i] == Entry(es[i].key, es[i].value, es[i].expires)
  {
    if es == [] then [] else [Entry(es[0].key, es[0].value, es[0].expires)] + EntriesOf(es[1..])
  }

  /** Map and list hold the same elements, each once, under its own key. */
  ghost predicate Linked(entries: map<string, Element>, lru: seq<Element>) {
    && (forall k :: k in entries ==> entries[k].key == k && entries[k] in lru)
    && (forall i :: 0 <= i < |lru| ==> lru[i].key in entries && entries[lru[i].key] == lru[i])
    && (forall i, j :: 0 <= i < j < |lru| ==> lru[i] != lru[j])
  }

  class LocationCache {
    const cap: nat
    const ttl: int
    var entries: map<string, Element>
    var lru: seq<Element>

    ghost predicate Valid()
      reads this
    {
      Linked(entries, lru) && 1 <= cap && |lru| <= cap
    }

    ghost function Contents(): seq<Entry>
      reads this, lru
    {
      EntriesOf(lru)
    }

    constructor (capacity: int, ttl: int)
      ensures Valid() && Contents() == []
      ensures cap == if capacity <= 0 then DEFAULT_CAPACITY else capacity
      ensures this.ttl == if ttl <= 0 then DEFAULT_TTL else ttl
    {
      cap := if capacity <= 0 then DEFAULT_CAPACITY else capacity;
      this.ttl := if ttl <= 0 then DEFAULT_TTL else ttl;
      entries, lru := map[], [];
    }

    /** Where the list holds the element the map points at. */
    lemma Position(key: string)
      requires Linked(entries, lru)
      ensures Find(Contents(), key) < |lru| <==> key in entries
      ensures key in entries ==> lru[Find(Contents(), key)] == entries[key]
    {
      if key in entries {
        var j :| 0 <= j < |lru| && lru[j] == entries[key];
        assert Contents()[j].key == key;
      }
    }

    /** The list operation: take the element out, wherever it is. */
    method Unlink(el: Element)
      requires Linked(entries, lru) && el in lru
      modifies this`lru
      ensures Find(old(Contents()), el.key) < |old(lru)| && old(lru)[Find(old(Contents()), el.key)] == el
      ensures lru == Drop(old(lru), Find(old(Contents()), el.key))
    {
      Position(el.key);
      var at: nat :| at < |lru| && lru[at] == el;
      lru := lru[..at] + lru[at + 1..];
    }

    method MoveToFront(el: Element)
      requires Linked(entries, lru) && el in lru
      modifies this`lru
      ensures Linked(entries, lru) && |lru| == |old(lru)|
      ensures Find(old(Contents()), el.key) < |old(lru)| && old(lru)[Find(old(Contents()), el.key)] == el
      ensures lru == [el] + Drop(old(lru), Find(old(Contents()), el.key))
    {
      hide Find, Linked;
      FrontLinked(entries, lru, Find(Contents(), el.key));
      Position(el.key);
      ListedIsMapped(entries, lru, el);
      Unlink(el);
      lru := [el] + lru;
    }

    method Remove(el: Element)
      requires Linked(entries, lru) && el in lru
      modifies this`lru, this`entries
      ensures Linked(entries, lru)
      ensures Find(old(Contents()), el.key) < |old(lru)| && old(lru)[Find(old(Contents()), el.key)] == el
      ensures lru == Drop(old(lru), Find(old(Contents()), el.key))
      ensures entries == old(entries) - {el.key}
    {
      hide Find, Linked;
      Position(el.key);
      ListedIsMapped(entries, lru, el);
      DropLinked(entries, lru, Find(Contents(), el.key));
      Unlink(el);
      entries := entries - {el.key};
    }

    method Get(key: string, now: int) returns (found: bool, value: Location)
      requires Valid()
      modifies this
      ensures Valid() && Contents() == Next(old(Contents()), cap, Op.Get(key), now)
      ensures found <==> Hits(old(Contents()), key, now)
      ensures found ==> value == old(Contents())[Find(old(Contents()), key)].value
      ensures forall e :: e in lru ==> e in old(lru)
    {
      hide Find, EntriesOf, Linked, Drop;
      value := Location("", "", 0, 0);
      Position(key);
      if key !in entries {
        return false, value;
      }
      var el := entries[key];
      MappedIsListed(entries, lru, key);
      ghost var i := Find(Contents(), key);
      DropEntries(lru, i);
      SameElements(lru, i, el);
      if now > el.expires {
        Remove(el);
        assert lru == Drop(old(lru), i);
        assert EntriesOf(lru) == old(EntriesOf(Drop(lru, i)));
        assert Contents() == Drop(old(Contents()), i);
        return false, value;
      }
      FrontEntries(el, Drop(lru, i));
      MoveToFront(el);
      assert lru == [el] + Drop(old(lru), i);
      assert EntriesOf(lru) == old(EntriesOf([el] + Drop(lru, i)));
      assert forall e :: e in lru <==> e == el || e in Drop(old(lru), i);
      return true, el.value;
    }

    /** A known key: its element moves to the front and is rewritten in place. */
    method Refresh(key: string, value: Location, expires: int)
      requires Valid() && key in entries
      modifies this`lru, lru
      ensures Valid() && Find(old(Contents()), key) < |old(lru)|
      ensures Contents() == [Entry(key, value, expires)] + Drop(old(Contents()), Find(old(Contents()), key))
      ensures forall e :: e in lru ==> e in old(lru)
    {
      hide Find, EntriesOf, Linked, Drop;
      MappedIsListed(entries, lru, key);
      var el := entries[key];
      ghost var i := Find(Contents(), key);
      Position(key);
      OnlyPlace(entries, lru, i);
      DropEntries(lru, i);
      SameElements(lru, i, el);
      MoveToFront(el);
      ghost var others := Drop(old(lru), i);
      el.value := value;
      el.expires := expires;
      assert lru == [el] + others && el !in others;
      assert EntriesOf(others) == old(EntriesOf(Drop(lru, i)));
      FrontEntries(el, others);
      assert forall e :: e in lru <==> e == el || e in others;
    }

    /** The least recently used element goes. */
    method EvictOldest()
      requires Linked(entries, lru) && lru != []
      modifies this`lru, this`entries
      ensures Linked(entries, lru) && lru == old(lru)[..|old(lru)| - 1]
      ensures entries.Keys <= old(entries).Keys
    {
      hide Find, EntriesOf;
      var oldest := lru[|lru| - 1];
      ghost var i := Find(Contents(), oldest.key);
      Position(oldest.key);
      LastPlace(entries, lru, i);
      Remove(oldest);
    }

    /** A new key goes to the front, and a full list gives up its last element. */
    method Insert(key: string, value: Location, expires: int)
      requires Valid() && key !in entries
      modifies this
      ensures Valid() && Contents() == [Entry(key, value, expires)] + Evicted(old(Contents()), cap)
      ensures forall e :: e in lru ==> e in old(lru) || fresh(e)
    {
      hide Find, EntriesOf, Linked;
      EvictedEntries(lru, cap);
      if |lru| >= cap {
        EvictOldest();
      }
      assert lru == Evicted(old(lru), cap);
      assert EntriesOf(lru) == old(EntriesOf(Evicted(lru, cap)));
      var el := new Element(key, value, expires);
      assert EntriesOf(lru) == old(EntriesOf(Evicted(lru, cap)));
      FrontEntries(el, lru);
      InsertLinked(entries, lru, el);
      lru := [el] + lru;
      entries := entries[key := el];
    }

    method SetWithTTL(key: string, value: Location, ttl: int, now: int)
      requires Valid()
      modifies this, lru
      ensures Valid() && Contents() == Next(old(Contents()), cap, Op.Set(key, value, ttl), now)
      ensures forall e :: e in lru ==> e in old(lru) || fresh(e)
    {
      hide Find, EntriesOf, Linked, Drop, Evicted;
      EntriesLength(lru);
      Position(key);
      if key in entries {
        Refresh(key, value, now + ttl);
        return;
      }
      Insert(key, value, now + ttl);
    }

    method Delete(key: string, now: int)
      requires Valid()
      modifies this
      ensures Valid() && Contents() == Next(old(Contents()), cap, Op.Delete(key), now)
      ensures forall e :: e in lru ==> e in old(lru)
    {
      hide Find, EntriesOf, Linked, Drop;
      EntriesLength(lru);
      Position(key);
      if key in entries {
        var el := entries[key];
        MappedIsListed(entries, lru, key);
        ghost var i := Find(Contents(), key);
        DropEntries(lru, i);
        SameElements(lru, i, el);
        Remove(el);
        assert lru == Drop(old(lru), i);
        assert EntriesOf(lru) == old(EntriesOf(Drop(lru, i)));
        assert Contents() == Drop(old(Contents()), i);
      }
    }
  }

  lemma EntriesLength(es: seq<Element>)
    ensures |EntriesOf(es)| == |es|
    ensures forall i :: 0 <= i < |es| ==> EntriesOf(es)[i] == Entry(es[i].key, es[i].value, es[i].expires)
  {
  }

  lemma DropEntries(es: seq<Element>, i: nat)
    requires i < |es|
    ensures |EntriesOf(es)| == |es| && EntriesOf(Drop(es, i)) == Drop(EntriesOf(es), i)
    ensures EntriesOf(es)[i] == Entry(es[i].key, es[i].value, es[i].expires)
  {
  }

  lemma FrontEntries(el: Element, es: seq<Element>)
    ensures EntriesOf([el] + es) == [Entry(el.key, el.value, el.expires)] + EntriesOf(es)
  {
  }

  /** Taking one element out of a list leaves the others. */
  lemma SameElements(l: seq<Element>, i: nat, el: Element)
    requires i < |l| && l[i] == el
    ensures forall e :: e in l <==> e == el || e in Drop(l, i)
  {
    forall e | e in l && e != el ensures e in Drop(l, i) {
      var j :| 0 <= j < |l| && l[j] == e;
      if j < i {
        assert Drop(l, i)[j] == e;
      } else {
        assert Drop(l, i)[j - 1] == e;
      }
    }
  }

  lemma MappedIsListed(entries: map<string, Element>, lru: seq<Element>, key: string)
    requires Linked(entries, lru) && key in entries
    ensures entries[key] in lru && entries[key].key == key
  {
  }

  lemma ListedIsMapped(entries: map<string, Element>, lru: seq<Element>, el: Element)
    requires Linked(entries, lru) && el in lru
    ensures el.key in entries && entries[el.key] == el
  {
  }

  lemma OnlyPlace(entries: map<string, Element>, lru: seq<Element>, i: nat)
    requires Linked(entries, lru) && i < |lru|
    ensures lru[i] !in Drop(lru, i)
  {
  }

  lemma LastPlace(entries: map<string, Element>, lru: seq<Element>, i: nat)
    requires Linked(entries, lru) && i < |lru| && lru[i] == lru[|lru| - 1]
    ensures i == |lru| - 1 && Drop(lru, i) == lru[..|lru| - 1]
  {
  }

  lemma FrontLinked(entries: map<string, Element>, lru: seq<Element>, i: nat)
    requires Linked(entries, lru)
    ensures i < |lru| ==> Linked(entries, [lru[i]] + Drop(lru, i))
  {
    if i < |lru| {
      SameElements(lru, i, lru[i]);
      OnlyPlace(entries, lru, i);
    }
  }

  lemma DropLinked(entries: map<string, Element>, lru: seq<Element>, i: nat)
    requires Linked(entries, lru) && i < |lru|
    ensures Linked(entries - {lru[i].key}, Drop(lru, i))
  {
    SameElements(lru, i, lru[i]);
    OnlyPlace(entries, lru, i);
  }

  lemma InsertLinked(entries: map<string, Element>, lru: seq<Element>, el: Element)
    requires Linked(entries, lru) && el.key !in entries
    ensures Linked(entries[el.key := el], [el] + lru)
  {
  }

  lemma EvictedEntries(es: seq<Element>, cap: nat)
    ensures EntriesOf(Evicted(es, cap)) == Evicted(EntriesOf(es), cap)
  {
  }
}
