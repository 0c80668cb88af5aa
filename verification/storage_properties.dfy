/** Properties that relate several store operations: reading back what was
    saved, surviving a restart, repeated reads, deleting, and finding by name
    and in the listing what was just saved. */
module StorageProperties {
  import opened Basics
  import opened ProjectStorage

  /** A saved record is read back by the id `save` returns, from memory,
      and the read changes nothing. */
  lemma SaveThenGet(s: Store, p: ProjectContext, persist: bool, now: string)
    ensures var (id, t) := Save(s, p, persist, now);
            Get(t, id) == (Some(p.(updatedAt := now)), t)
  {
  }

  /** A record saved with `persist` is found again by a new process that
      starts with an empty memory tier. */
  lemma PersistSurvivesRestart(s: Store, p: ProjectContext, now: string)
    ensures Get(Restart(Save(s, p, true, now).1), p.projectId).0 == Some(p.(updatedAt := now))
  {
  }

  /** A record saved without `persist`, with no earlier file under its
      name, is gone for a new process. */
  lemma UnpersistedLostOnRestart(s: Store, p: ProjectContext, now: string)
    requires Sanitize(p.projectId) !in s.files
    ensures Get(Restart(Save(s, p, false, now).1), p.projectId).0 == None
  {
  }

  /** Reading twice returns the same record; the second read changes
      nothing, since the first cached any file hit. */
  lemma GetTwice(s: Store, id: string)
    ensures var (r, t) := Get(s, id);
            Get(t, id) == (r, t)
  {
  }

  /** Ids that sanitise to the same file name share the file: after a
      restart, reading a different id with the same safe form returns the
      persisted record, whose own id differs from the one asked for. */
  lemma CollidingIdsShareFile(s: Store, p: ProjectContext, now: string, other: string)
    requires Sanitize(other) == Sanitize(p.projectId)
    ensures Get(Restart(Save(s, p, true, now).1), other).0 == Some(p.(updatedAt := now))
  {
  }

  /** One such pair: `a.b` and `ab` name the same file. */
  lemma CollisionExample()
    ensures Sanitize("a.b") == Sanitize("ab") == "ab"
  {
    assert Sanitize("b") == "b";
    assert Sanitize(".b") == "b";
    assert Sanitize("ab") == "ab";
  }

  /** After a full delete nothing is found under the id. */
  lemma DeleteThenGet(s: Store, id: string)
    ensures Get(Delete(s, id, true).1, id).0 == None
  {
  }

  /** A delete that keeps the file is undone by the next read, which loads
      the file again. */
  lemma SoftDeleteReloads(s: Store, id: string)
    requires Sanitize(id) in s.files
    ensures Get(Delete(s, id, false).1, id).0 == Some(s.files[Sanitize(id)])
  {
  }

  /** Deleting twice removes nothing the second time, reports so, and
      leaves the store as the first delete left it. */
  lemma DeleteTwice(s: Store, id: string, deleteFile: bool)
    ensures var (_, t) := Delete(s, id, deleteFile);
            Delete(t, id, deleteFile) == (false, t)
  {
    var (_, t) := Delete(s, id, deleteFile);
    assert id !in t.order;
    WithoutAbsent(t.order, id);
    assert t.memory - {id} == t.memory;
  }

  /** A just-saved record is found by its name: the name lookup succeeds,
      and when no other memory entry carries that name it returns exactly
      the saved record. */
  lemma SaveThenGetByName(s: Store, p: ProjectContext, persist: bool, now: string, glob: seq<string>)
    requires Valid(s)
    requires Enumerates(glob, Save(s, p, persist, now).1.files)
    ensures var r := GetByName(Save(s, p, persist, now).1, p.projectName, glob);
            r.Some? && r.value.projectName == p.projectName
    ensures (forall k :: k in s.memory && k != p.projectId ==> s.memory[k].projectName != p.projectName) ==>
              GetByName(Save(s, p, persist, now).1, p.projectName, glob) == Some(p.(updatedAt := now))
  {
    var t := Save(s, p, persist, now).1;
    var q := p.(updatedAt := now);
    assert t.memory[p.projectId] == q;
    assert NamedInMemory(t, p.projectName);
    var r := GetByName(t, p.projectName, glob);
    var i :| 0 <= i < |t.order| && r == Some(t.memory[t.order[i]]);
    if forall k :: k in s.memory && k != p.projectId ==> s.memory[k].projectName != p.projectName {
      assert t.order[i] == p.projectId;
    }
  }

  /** A just-saved record appears in the listing, once, as a memory row. */
  lemma SaveThenList(s: Store, p: ProjectContext, persist: bool, now: string, glob: seq<string>)
    requires Valid(s)
    requires Enumerates(glob, Save(s, p, persist, now).1.files)
    ensures var es := ListProjects(Save(s, p, persist, now).1, glob);
            exists i :: 0 <= i < |es| && es[i] == MemoryRow(p.projectId, p.(updatedAt := now))
  {
    var t := Save(s, p, persist, now).1;
    var es := ListProjects(t, glob);
    assert p.projectId in IdsOf(es);
    var i :| 0 <= i < |es| && es[i].projectId == p.projectId;
    assert es[i] in es;
  }
}
