/**
 * The in-memory registry of paid-for skill packages (src/lib/skillStore.ts):
 * a map from id to entry with a one-hour time to live. The clock is the
 * `now` parameter of each operation; the ten-minute sweep timer is a caller
 * that invokes `Cleanup` on its own.
 */
module SkillStore {
  import opened Options
  import opened ZipCreator

  /** One hour in milliseconds. */
  const TtlMs: int := 60 * 60 * 1000

  datatype StoredSkill = StoredSkill(data: SkillPackageData, createdAt: int)

  /** Older than the time to live, strictly: an entry exactly one hour old is still live. */
  predicate Expired(e: StoredSkill, now: int) {
    now - e.createdAt > TtlMs
  }

  /** What `cleanup` leaves: exactly the entries that have not expired, untouched. */
  function Swept(m: map<string, StoredSkill>, now: int): (r: map<string, StoredSkill>)
    ensures forall id :: id in r <==> id in m && !Expired(m[id], now)
    ensures forall id | id in r :: r[id] == m[id]
  {
    map id | id in m && !Expired(m[id], now) :: m[id]
  }

  /** What `set` leaves: the sweep, then the new entry stamped with `now`. */
  function AfterSet(m: map<string, StoredSkill>, id: string, data: SkillPackageData, now: int): (r: map<string, StoredSkill>)
    ensures id in r && r[id] == StoredSkill(data, now)
    ensures forall other | other != id :: other in r <==> other in m && !Expired(m[other], now)
  {
    Swept(m, now)[id := StoredSkill(data, now)]
  }

  /** The result of `get` and the map it leaves behind. */
  datatype Lookup = Lookup(value: Option<SkillPackageData>, remaining: map<string, StoredSkill>)

  /** `get`: absent gives nothing; expired gives nothing and drops the entry; live gives its data. */
  function GetResult(m: map<string, StoredSkill>, id: string, now: int): (r: Lookup)
    ensures r.value.Some? <==> id in m && !Expired(m[id], now)
    ensures r.value.Some? ==> r.value.value == m[id].data
    ensures id !in r.remaining || r.value.Some?
    ensures forall other | other != id :: other in r.remaining <==> other in m
    ensures forall other | other != id && other in m :: r.remaining[other] == m[other]
  {
    if id !in m then Lookup(None, m)
    else if Expired(m[id], now) then Lookup(None, m - {id})
    else Lookup(Some(m[id].data), m)
  }

  class Store {
    var entries: map<string, StoredSkill>

    constructor ()
      ensures entries == map[]
    {
      entries := map[];
    }

    /** `cleanup`: walks the keys and deletes each expired entry. */
    method Cleanup(now: int)
      modifies this
      ensures entries == Swept(old(entries), now)
    {
      var pending := entries.Keys;
      ghost var start := entries;
      while pending != {}
        invariant pending <= start.Keys
        invariant forall id :: id in entries <==> id in start && (id in pending || !Expired(start[id], now))
        invariant forall id | id in entries :: entries[id] == start[id]
        decreases pending
      {
        var id :| id in pending;
        if Expired(entries[id], now) {
          entries := entries - {id};
        }
        pending := pending - {id};
      }
      assert entries.Keys == Swept(start, now).Keys;
    }

    /** `set`: sweep first, then store the data stamped with `now`. */
    method Set(id: string, data: SkillPackageData, now: int)
      modifies this
      ensures entries == AfterSet(old(entries), id, data, now)
    {
      Cleanup(now);
      entries := entries[id := StoredSkill(data, now)];
    }

    /** `get`, dropping the entry when it has expired. */
    method Get(id: string, now: int) returns (value: Option<SkillPackageData>)
      modifies this
      ensures Lookup(value, entries) == GetResult(old(entries), id, now)
    {
      if id !in entries {
        return None;
      }
      var entry := entries[id];
      if now - entry.createdAt > TtlMs {
        entries := entries - {id};
        return None;
      }
      return Some(entry.data);
    }

    /** `delete`. */
    method Delete(id: string)
      modifies this
      ensures entries == old(entries) - {id}
    {
      entries := entries - {id};
    }
  }

  // ---------------------------------------------------------------------------
  // Properties

  /** Reading back what was just stored, at the same time, gives the data, and changes nothing. */
  lemma SetThenGet(m: map<string, StoredSkill>, id: string, data: SkillPackageData, now: int)
    ensures GetResult(AfterSet(m, id, data, now), id, now) == Lookup(Some(data), AfterSet(m, id, data, now))
  {
  }

  /** An entry exactly one time-to-live old is still returned; one millisecond later it is gone. */
  lemma TtlBoundary(m: map<string, StoredSkill>, id: string)
    requires id in m
    ensures GetResult(m, id, m[id].createdAt + TtlMs) == Lookup(Some(m[id].data), m)
    ensures GetResult(m, id, m[id].createdAt + TtlMs + 1) == Lookup(None, m - {id})
  {
  }

  /** Reading a live or absent id leaves the map as it was. */
  lemma GetKeepsMapUnlessExpired(m: map<string, StoredSkill>, id: string, now: int)
    ensures GetResult(m, id, now).remaining == m <==> id !in m || !Expired(m[id], now)
  {
    if id in m && Expired(m[id], now) {
      assert id !in GetResult(m, id, now).remaining;
    }
  }

  /** Deleting twice is deleting once, and nothing can be read back afterwards, at any time. */
  lemma DeleteIdempotent(m: map<string, StoredSkill>, id: string, now: int)
    ensures (m - {id}) - {id} == m - {id}
    ensures GetResult(m - {id}, id, now) == Lookup(None, m - {id})
    ensures forall other | other != id && other in m :: other in m - {id} && (m - {id})[other] == m[other]
  {
  }

  /** After `set`, no entry is older than the time to live, and only expired ones were lost. */
  lemma SetLeavesOnlyLiveEntries(m: map<string, StoredSkill>, id: string, data: SkillPackageData, now: int)
    ensures forall other | other in AfterSet(m, id, data, now) :: !Expired(AfterSet(m, id, data, now)[other], now)
    ensures forall other | other in m && other != id && !Expired(m[other], now) ::
      other in AfterSet(m, id, data, now) && AfterSet(m, id, data, now)[other] == m[other]
  {
    var r := AfterSet(m, id, data, now);
    forall other | other in r ensures !Expired(r[other], now) {
      if other != id {
        assert r[other] == Swept(m, now)[other];
      }
    }
  }
}
