/** The versions of one configuration key: draft, publish, rollback, and the cached
    read. The rows are a table that is pruned to twenty versions; the runtime cache
    may expire at any moment. */
module AdminConfig {
  import opened Results

  datatype Row = Row(value: string, version: nat, draft: bool, active: bool)

  const HISTORY := 20

  // -------------------------------------------------------------------- tables

  predicate IsDraft(r: Row) { r.draft }
  predicate IsPublished(r: Row) { !r.draft }
  predicate IsActive(r: Row) { r.active && !r.draft }
  predicate IsRetired(r: Row) { !r.active && !r.draft }

  function Filter(rows: seq<Row>, f: Row -> bool): (kept: seq<Row>)
    ensures |kept| <= |rows|
    ensures forall r :: r in kept <==> r in rows && f(r)
  {
    if rows == [] then []
    else
      assert forall r :: r in rows <==> r == rows[0] || r in rows[1..];
      (if f(rows[0]) then [rows[0]] else []) + Filter(rows[1..], f)
  }

  function First(rows: seq<Row>, f: Row -> bool): (at: Option<nat>)
    ensures at.Some? ==> at.value < |rows| && f(rows[at.value])
    ensures at.None? ==> forall r <- rows :: !f(r)
  {
    if rows == [] then None
    else if f(rows[0]) then Some(0)
    else match First(rows[1..], f) case None => None case Some(i) => Some(i + 1)
  }

  /** The retired row with the least version. */
  function Oldest(rows: seq<Row>): (at: Option<nat>)
    ensures at.Some? ==> at.value < |rows| && IsRetired(rows[at.value])
    ensures at.Some? ==> forall r <- rows :: IsRetired(r) ==> rows[at.value].version <= r.version
    ensures at.None? ==> forall r <- rows :: !IsRetired(r)
  {
    if rows == [] then None
    else
      var later := Oldest(rows[1..]);
      if !IsRetired(rows[0]) then (if later.None? then None else Some(later.value + 1))
      else if later.None? || rows[0].version <= rows[1..][later.value].version then Some(0)
      else Some(later.value + 1)
  }

  function WithoutOldest(rows: seq<Row>, excess: nat): seq<Row>
    decreases excess
  {
    if excess == 0 || Oldest(rows).None? then rows
    else
      var at := Oldest(rows).value;
      WithoutOldest(rows[..at] + rows[at + 1..], excess - 1)
  }

  function SavedDraft(rows: seq<Row>, value: string): seq<Row> {
    match First(rows, IsDraft)
    case Some(i) => rows[i := rows[i].(value := value)]
    case None => rows + [Row(value, 0, true, false)]
  }

  function NextVersion(rows: seq<Row>): nat {
    match First(rows, IsActive)
    case Some(i) => rows[i].version + 1
    case None => 1
  }

  function Deactivated(rows: seq<Row>): seq<Row> {
    match First(rows, IsActive)
    case Some(i) => rows[i := rows[i].(active := false)]
    case None => rows
  }

  function Pruned(rows: seq<Row>): seq<Row> {
    var total := |Filter(rows, IsPublished)|;
    if total > HISTORY then WithoutOldest(rows, total - HISTORY) else rows
  }

  function Published(rows: seq<Row>, value: string): seq<Row> {
    Pruned(Filter(Deactivated(rows) + [Row(value, NextVersion(rows), false, true)], IsPublished))
  }

  function HasVersion(version: int): Row -> bool {
    r => IsPublished(r) && r.version == version
  }

  /** The published row with the given version. */
  function Target(rows: seq<Row>, version: int): Option<nat> {
    First(rows, HasVersion(version))
  }

  /** The published rows, greatest version first. */
  function NewestFirst(rows: seq<Row>): (r: seq<Row>)
    ensures |r| == |rows|
    decreases |rows|
  {
    if rows == [] then []
    else
      var at := Newest(rows);
      [rows[at]] + NewestFirst(rows[..at] + rows[at + 1..])
  }

  function Newest(rows: seq<Row>): (at: nat)
    requires rows != []
    ensures at < |rows| && forall r <- rows :: r.version <= rows[at].version
  {
    if |rows| == 1 then 0
    else
      var later := Newest(rows[1..]);
      assert forall r <- rows :: r == rows[0] || r in rows[1..];
      if rows[1..][later].version <= rows[0].version then 0 else later + 1
  }

  class ConfigKey {
    var rows: seq<Row>
    var cache: Option<string>

    constructor ()
      ensures rows == [] && cache == None
    {
      rows, cache := [], None;
    }

    method SaveDraft(value: string)
      modifies this`rows
      ensures rows == SavedDraft(old(rows), value)
    {
      var draft := First(rows, IsDraft);
      if draft.Some? {
        rows := rows[draft.value := rows[draft.value].(value := value)];
      } else {
        rows := rows + [Row(value, 0, true, false)];
      }
    }

    method DiscardDraft() returns (deleted: bool)
      modifies this`rows
      ensures rows == Filter(old(rows), IsPublished)
      ensures deleted <==> exists r <- old(rows) :: IsDraft(r)
    {
      var before := |rows|;
      SomethingFiltered(rows);
      rows := Filter(rows, IsPublished);
      deleted := before > |rows|;
    }

    method Publish(value: string) returns (version: nat)
      modifies this
      ensures rows == Published(old(rows), value) && cache == Some(value) && version == NextVersion(old(rows))
    {
      version := Retire();
      rows := rows + [Row(value, version, false, true)];
      rows := Filter(rows, IsPublished);
      cache := Some(value);
      PruneHistory();
    }

    /** The active row stops being active; the next version. */
    method Retire() returns (version: nat)
      modifies this`rows
      ensures rows == Deactivated(old(rows)) && version == NextVersion(old(rows))
    {
      var current := First(rows, IsActive);
      version := 1;
      if current.Some? {
        version := rows[current.value].version + 1;
        rows := rows[current.value := rows[current.value].(active := false)];
      }
    }

    method PruneHistory()
      modifies this`rows
      ensures rows == Pruned(old(rows))
    {
      var total := |Filter(rows, IsPublished)|;
      if total > HISTORY {
        rows := WithoutOldest(rows, total - HISTORY);
      }
    }

    method Rollback(version: int) returns (published: Result<nat, int>)
      modifies this
      ensures match Target(old(rows), version)
              case None => published == Err(version) && rows == old(rows) && cache == old(cache)
              case Some(i) =>
                && published == Ok(NextVersion(old(rows)))
                && rows == Published(old(rows), old(rows)[i].value) && cache == Some(old(rows)[i].value)
    {
      var target := Target(rows, version);
      if target.None? {
        return Err(version);
      }
      var next := Publish(rows[target.value].value);
      return Ok(next);
    }

    method Read(useCache: bool) returns (value: Option<string>)
      modifies this`cache
      ensures value == (if useCache && old(cache).Some? then old(cache) else ActiveValue(rows))
      ensures cache == if useCache && old(cache).None? then ActiveValue(rows) else old(cache)
    {
      if useCache && cache.Some? {
        return cache;
      }
      var active := First(rows, IsActive);
      if active.None? {
        return None;
      }
      if useCache {
        cache := Some(rows[active.value].value);
      }
      return Some(rows[active.value].value);
    }

    method Expire()
      modifies this`cache
      ensures cache == None
    {
      cache := None;
    }
  }

  function ActiveValue(rows: seq<Row>): Option<string> {
    match First(rows, IsActive)
    case Some(i) => Some(rows[i].value)
    case None => None
  }

  lemma {:induction false} SomethingFiltered(rows: seq<Row>)
    ensures |Filter(rows, IsPublished)| < |rows| <==> exists r <- rows :: IsDraft(r)
  {
    if rows != [] {
      SomethingFiltered(rows[1..]);
      assert forall r :: r in rows <==> r == rows[0] || r in rows[1..];
    }
  }
}
