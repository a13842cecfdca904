/** Putting a backup in place on an empty node (pkg/backup/restore.go, pkg/metadata/backup.go). */
module Restore {
  import opened Wrappers

  type Name = string
  type Files = string
  type Metadata = map<string, string>

  /** A complete, verified archive. */
  datatype Archive = Archive(indexes: map<Name, Files>, metadata: Metadata)

  /** What fails: moving an index into place, taking it out again, and a metadata write. */
  datatype Faults = Faults(renames: set<Name>, removals: set<Name>, writes: set<string>)

  /** Names that belong to the node itself. */
  predicate Own(n: Name) { n != "" && (n[0] == '_' || n[0] == '.') }

  /** The node is empty enough to restore into, and the archive brings nothing that is there. */
  predicate Fits(data: map<Name, Files>, a: Archive) {
    (forall n | n in data :: Own(n)) && a.indexes.Keys !! data.Keys
  }

  class Node {
    var data: map<Name, Files>
    var metadata: Metadata
    /** How many indexes are loaded. */
    var loaded: nat

    constructor (data: map<Name, Files>, metadata: Metadata, loaded: nat)
      ensures this.data == data && this.metadata == metadata && this.loaded == loaded
    {
      this.data, this.metadata, this.loaded := data, metadata, loaded;
    }

    method CheckEmpty() returns (ok: bool)
      ensures ok <==> loaded == 0 && forall n | n in data :: "_" <= n || "." <= n
    {
      if loaded > 0 { return false; }
      var todo := data.Keys;
      while todo != {}
        invariant todo <= data.Keys && forall n | n in data && n !in todo :: Own(n)
      {
        var n :| n in todo;
        if !Own(n) { return false; }
        todo := todo - {n};
      }
      ok := true;
    }

    /** Moves every index into place, in any order, until one cannot be moved. */
    method MoveIndexes(indexes: map<Name, Files>, f: Faults) returns (ok: bool, moved: set<Name>)
      modifies this`data
      ensures moved <= indexes.Keys && moved !! old(data).Keys
      ensures data == old(data) + map n | n in moved :: indexes[n]
      ensures ok <==> indexes.Keys !! old(data).Keys + f.renames
      ensures ok ==> moved == indexes.Keys
    {
      moved := {};
      var todo := indexes.Keys;
      assert data == old(data) + map n | n in moved && n in indexes :: indexes[n];
      while todo != {}
        invariant todo <= indexes.Keys && moved == indexes.Keys - todo
        invariant moved !! old(data).Keys + f.renames
        invariant data == old(data) + map n | n in moved && n in indexes :: indexes[n]
      {
        var n :| n in todo;
        if n in data || n in f.renames {
          assert n in old(data).Keys + f.renames;
          return false, moved;
        }
        data := data[n := indexes[n]];
        todo, moved := todo - {n}, moved + {n};
      }
      ok := true;
    }

    /** Makes the metadata equal to entries, key by key. A write that fails stops it. */
    method LoadMetadata(entries: Metadata, f: Faults) returns (ok: bool)
      modifies this`metadata
      ensures ok ==> metadata == entries
      ensures f.writes == {} ==> ok
      ensures forall k :: Find(metadata, k) == Find(old(metadata), k) || Find(metadata, k) == Find(entries, k)
    {
      var extra := metadata.Keys - entries.Keys;
      while extra != {}
        invariant extra == metadata.Keys - entries.Keys
        invariant forall k :: Find(metadata, k) == if k in entries || k in extra then Find(old(metadata), k) else None
      {
        var k :| k in extra;
        if k in f.writes { return false; }
        metadata := metadata - {k};
        extra := extra - {k};
      }
      var todo := entries.Keys;
      while todo != {}
        invariant todo <= entries.Keys
        invariant forall k :: Find(metadata, k) == if k in todo then Find(old(metadata), k) else Find(entries, k)
      {
        var k :| k in todo;
        if k in f.writes { return false; }
        metadata := metadata[k := entries[k]];
        todo := todo - {k};
      }
      assert forall k :: k in metadata <==> Find(metadata, k).Some?;
      assert forall k :: k in metadata <==> k in entries;
      ok := true;
    }

    /** Restores the archive, into a node with nothing but its own files; None stands for an
        archive that is damaged. */
    method RestoreArchive(archive: Option<Archive>, f: Faults) returns (ok: bool)
      modifies this`data, this`metadata
      ensures ok ==> archive.Some? && old(loaded) == 0 && forall n | n in old(data) :: "_" <= n || "." <= n
      ensures && archive.Some? && old(loaded) == 0 && (forall n | n in old(data) :: "_" <= n || "." <= n)
              && archive.value.indexes.Keys !! old(data).Keys && f.renames == f.writes == {} ==>
                ok
      ensures ok ==> archive.Some? && old(loaded) == 0 && Fits(old(data), archive.value)
                     && data == old(data) + archive.value.indexes && metadata == archive.value.metadata
      ensures archive.Some? && old(loaded) == 0 && Fits(old(data), archive.value) && f.renames == f.writes == {} ==>
                ok
      ensures archive.None? || old(loaded) > 0 || !Fits(old(data), archive.value)
              || f.renames * archive.value.indexes.Keys != {} ==>
                !ok && metadata == old(metadata)
      ensures !ok && f.removals == {} ==> data == old(data)
      ensures forall n | n in old(data) :: n in data && data[n] == old(data)[n]
      ensures archive.Some? ==>
                forall k :: Find(metadata, k) == Find(old(metadata), k)
                            || Find(metadata, k) == Find(archive.value.metadata, k)
    {
      var empty := CheckEmpty();
      if !empty || archive.None? { return false; }
      var moved;
      ok, moved := MoveIndexes(archive.value.indexes, f);
      if ok {
        assert (map n | n in moved :: archive.value.indexes[n]) == archive.value.indexes;
        ok := LoadMetadata(archive.value.metadata, f);
      }
      if !ok {
        data := data - (moved - f.removals);
        assert f.removals == {} ==> data == old(data);
      }
    }
  }
}
