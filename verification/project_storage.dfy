/** The two-tier store of project contexts behind the project tracker.

    The memory tier is a dictionary from project id to record; Python
    dictionaries iterate in insertion order, so the tier is modelled as a map
    together with the sequence of its keys in insertion order. The file tier
    is the directory of `<safe id>.json` files, modelled as a map from the
    sanitised id to the record the file holds; the order in which a directory
    scan visits the files is a parameter (`glob`) of the operations that scan. */
module ProjectStorage {
  import opened Basics

  /** One captured project (`ProjectContext`). `metadata` holds arbitrary
      JSON values in the source; here they are strings. */
  datatype ProjectContext = ProjectContext(
    projectId: string,
    projectName: string,
    summary: string,
    context: string,
    decisions: seq<string>,
    blockers: seq<string>,
    nextSteps: seq<string>,
    focusAreas: seq<string>,
    createdAt: string,
    updatedAt: string,
    metadata: map<string, string>)

  /** Both tiers. `order` lists the memory keys in insertion order. */
  datatype Store = Store(
    memory: map<string, ProjectContext>,
    order: seq<string>,
    files: map<string, ProjectContext>)

  /** The representation invariant of the memory tier: `order` lists every
      key of `memory` exactly once and nothing else. */
  predicate Valid(s: Store)
  {
    && Distinct(s.order)
    && (forall k :: k in s.order ==> k in s.memory)
    && (forall k :: k in s.memory ==> k in s.order)
  }

  /** A freshly constructed store: nothing in memory, no files. */
  const Empty: Store := Store(map[], [], map[])

  /** A new process over the same projects directory: the memory tier starts
      empty, the files remain. */
  function Restart(s: Store): (t: Store)
    ensures Valid(t) && t.memory == map[] && t.files == s.files
  {
    Store(map[], [], s.files)
  }

  /** `glob` lists exactly the files of the tier. */
  predicate Enumerates(glob: seq<string>, files: map<string, ProjectContext>)
  {
    && (forall k :: k in glob ==> k in files)
    && (forall k :: k in files ==> k in glob)
  }

  // ---------------------------------------------------------------------
  // File names
  // ---------------------------------------------------------------------

  /** ASCII letters and digits. */
  predicate IsAlnum(c: char)
  {
    ('a' <= c <= 'z') || ('A' <= c <= 'Z') || ('0' <= c <= '9')
  }

  /** The characters a file name keeps. */
  predicate IsSafeChar(c: char)
  {
    IsAlnum(c) || c == '-'
  }

  predicate AllSafe(s: string)
  {
    forall i :: 0 <= i < |s| ==> IsSafeChar(s[i])
  }

  /** The file-name stem of a project id: the id with every character other
      than a letter, a digit or `-` dropped. */
  function Sanitize(id: string): (safe: string)
    ensures AllSafe(safe)
    ensures |safe| <= |id|
  {
    if id == [] then []
    else if IsSafeChar(id[0]) then [id[0]] + Sanitize(id[1..])
    else Sanitize(id[1..])
  }

  /** Sanitising distributes over concatenation, so it is the filter that
      treats each character on its own. */
  lemma {:induction false} SanitizeAppend(x: string, y: string)
    ensures Sanitize(x + y) == Sanitize(x) + Sanitize(y)
  {
    if x != [] {
      var xy := x + y;
      assert xy[0] == x[0];
      assert xy[1..] == x[1..] + y;
      SanitizeAppend(x[1..], y);
      if IsSafeChar(x[0]) {
        assert Sanitize(xy) == [x[0]] + (Sanitize(x[1..]) + Sanitize(y));
        assert [x[0]] + (Sanitize(x[1..]) + Sanitize(y)) == ([x[0]] + Sanitize(x[1..])) + Sanitize(y);
      }
    } else {
      assert x + y == y;
    }
  }

  /** `ps` is strictly increasing. */
  predicate Increasing(ps: seq<nat>)
  {
    forall k, l :: 0 <= k < l < |ps| ==> ps[k] < ps[l]
  }

  /** Reading `id` at the positions `ps` spells `t`. */
  predicate Spells(ps: seq<nat>, id: string, t: string)
  {
    |ps| == |t| && forall k :: 0 <= k < |ps| ==> ps[k] < |id| && id[ps[k]] == t[k]
  }

  /** Every position of a safe character of `id` is among `ps`. */
  predicate CoversSafe(ps: seq<nat>, id: string)
  {
    forall i :: 0 <= i < |id| && IsSafeChar(id[i]) ==> i in ps
  }

  /** Each position moved one place to the right. */
  function Shifted(ps: seq<nat>): (r: seq<nat>)
    ensures |r| == |ps|
    ensures forall k :: 0 <= k < |r| ==> r[k] == ps[k] + 1
  {
    seq(|ps|, k requires 0 <= k < |ps| => ps[k] + 1)
  }

  /** The positions kept from `id` given those kept from its tail. */
  function ConsPositions(id: string, rest: seq<nat>): (ps: seq<nat>)
    requires id != []
    ensures |rest| <= |ps| <= |rest| + 1
  {
    (if IsSafeChar(id[0]) then [0] else []) + Shifted(rest)
  }

  /** The sanitised id keeps characters of the id in their original order:
      `positions` says where each kept character came from, and every safe
      character of the id is among them. */
  lemma {:induction false} SanitizeSelects(id: string) returns (positions: seq<nat>)
    ensures Spells(positions, id, Sanitize(id))
    ensures Increasing(positions)
    ensures CoversSafe(positions, id)
  {
    if id == [] {
      positions := [];
    } else {
      var rest := SanitizeSelects(id[1..]);
      positions := ConsPositions(id, rest);
      ConsSpells(id, rest);
      ConsIncreasing(id, rest);
      ConsCovers(id, rest);
    }
  }

  lemma ConsSpells(id: string, rest: seq<nat>)
    requires id != [] && Spells(rest, id[1..], Sanitize(id[1..]))
    ensures Spells(ConsPositions(id, rest), id, Sanitize(id))
  {
    var sh := Shifted(rest);
    ShiftedSpells(id, rest);
    if IsSafeChar(id[0]) {
      assert [0] + sh == ConsPositions(id, rest);
      assert [id[0]] + Sanitize(id[1..]) == Sanitize(id);
      PrependSpells(id, sh, Sanitize(id[1..]));
    } else {
      assert sh == ConsPositions(id, rest);
    }
  }

  /** Positions into the tail of `id`, shifted by one, are positions into
      `id` spelling the same. */
  lemma ShiftedSpells(id: string, rest: seq<nat>)
    requires id != [] && Spells(rest, id[1..], Sanitize(id[1..]))
    ensures Spells(Shifted(rest), id, Sanitize(id[1..]))
  {
    var sh := Shifted(rest);
    var tail := id[1..];
    forall k | 0 <= k < |sh| ensures sh[k] < |id| && id[sh[k]] == Sanitize(tail)[k] {
      assert sh[k] == rest[k] + 1;
      assert id[rest[k] + 1] == tail[rest[k]];
    }
  }

  /** Adding position 0 in front spells the first character in front. */
  lemma PrependSpells(id: string, ps: seq<nat>, t: string)
    requires id != [] && Spells(ps, id, t)
    ensures Spells([0] + ps, id, [id[0]] + t)
  {
    var qs := [0] + ps;
    var u := [id[0]] + t;
    forall k | 0 <= k < |qs| ensures qs[k] < |id| && id[qs[k]] == u[k] {
      if k > 0 {
        assert qs[k] == ps[k - 1] && u[k] == t[k - 1];
      }
    }
  }

  lemma ConsIncreasing(id: string, rest: seq<nat>)
    requires id != [] && Increasing(rest)
    ensures Increasing(ConsPositions(id, rest))
  {
    var sh := Shifted(rest);
    assert Increasing(sh) by {
      forall k, l | 0 <= k < l < |sh| ensures sh[k] < sh[l] {
        assert rest[k] < rest[l];
      }
    }
    if IsSafeChar(id[0]) {
      var ps := [0] + sh;
      assert ps == ConsPositions(id, rest);
      forall k, l | 0 <= k < l < |ps| ensures ps[k] < ps[l] {
        assert ps[l] == sh[l - 1];
        if k > 0 {
          assert ps[k] == sh[k - 1];
        }
      }
    } else {
      assert sh == ConsPositions(id, rest);
    }
  }

  lemma ConsCovers(id: string, rest: seq<nat>)
    requires id != [] && CoversSafe(rest, id[1..])
    ensures CoversSafe(ConsPositions(id, rest), id)
  {
    var sh := Shifted(rest);
    var ps := ConsPositions(id, rest);
    forall i | 0 <= i < |id| && IsSafeChar(id[i]) ensures i in ps {
      if i == 0 {
        assert ps == [0] + sh;
        assert ps[0] == 0;
      } else {
        assert id[1..][i - 1] == id[i];
        var m :| 0 <= m < |rest| && rest[m] == i - 1;
        assert sh[m] == i;
        if IsSafeChar(id[0]) {
          assert ps == [0] + sh;
          assert ps[m + 1] == i;
        } else {
          assert ps == sh;
        }
      }
    }
  }

  /** An id already in the file-name alphabet is its own file-name stem, and
      only such ids are. */
  lemma {:induction false} SanitizeFixpoint(id: string)
    ensures Sanitize(id) == id <==> AllSafe(id)
  {
    if id != [] {
      SanitizeFixpoint(id[1..]);
      if !IsSafeChar(id[0]) {
        assert |Sanitize(id[1..])| <= |id[1..]| < |id|;
      }
      if AllSafe(id) {
        assert AllSafe(id[1..]) by {
          forall i | 0 <= i < |id[1..]| ensures IsSafeChar(id[1..][i]) {
            assert id[1..][i] == id[i + 1];
          }
        }
      }
    }
  }

  /** Sanitising a sanitised id changes nothing. */
  lemma SanitizeIdempotent(id: string)
    ensures Sanitize(Sanitize(id)) == Sanitize(id)
  {
    SanitizeFixpoint(Sanitize(id));
  }

  /** The string join over the generator that builds the safe id, one
      character at a time. */
  method SanitizeId(id: string) returns (safe: string)
    ensures safe == Sanitize(id)
  {
    safe := [];
    var i := 0;
    while i < |id|
      invariant 0 <= i <= |id|
      invariant safe == Sanitize(id[..i])
    {
      assert id[..i + 1] == id[..i] + [id[i]];
      SanitizeAppend(id[..i], [id[i]]);
      if IsSafeChar(id[i]) {
        safe := safe + [id[i]];
      }
      i := i + 1;
    }
    assert id[..i] == id;
  }

  /** Every file holds the record whose id names it; saving keeps it so. */
  predicate FilesKeyed(s: Store)
  {
    forall k :: k in s.files ==> Sanitize(s.files[k].projectId) == k
  }

  // ---------------------------------------------------------------------
  // save / get / delete
  // ---------------------------------------------------------------------

  /** Assignment `memory[key] = p`: a new key goes to the end of the
      insertion order, an existing key keeps its place. */
  function Remember(s: Store, key: string, p: ProjectContext): (t: Store)
    ensures t.memory == s.memory[key := p] && t.files == s.files
    ensures Valid(s) ==> Valid(t)
    ensures key in s.memory ==> t.order == s.order
    ensures key !in s.memory ==> t.order == s.order + [key]
  {
    if key in s.memory then s.(memory := s.memory[key := p])
    else Store(s.memory[key := p], s.order + [key], s.files)
  }

  /** `save(project, persist)` at time `now`: stamps `updatedAt`, always
      writes memory, writes the file only when `persist` is set, and returns
      the project id. */
  function Save(s: Store, p: ProjectContext, persist: bool, now: string): (r: (string, Store))
    ensures r.0 == p.projectId
    ensures r.1.memory == s.memory[p.projectId := p.(updatedAt := now)]
    ensures p.projectId in s.memory ==> r.1.order == s.order
    ensures p.projectId !in s.memory ==> r.1.order == s.order + [p.projectId]
    ensures !persist ==> r.1.files == s.files
    ensures persist ==> r.1.files == s.files[Sanitize(p.projectId) := p.(updatedAt := now)]
    ensures Valid(s) ==> Valid(r.1)
    ensures FilesKeyed(s) ==> FilesKeyed(r.1)
  {
    var q := p.(updatedAt := now);
    var t := Remember(s, p.projectId, q);
    (p.projectId, if persist then t.(files := t.files[Sanitize(p.projectId) := q]) else t)
  }

  /** `get(project_id)`: memory first; otherwise the file named by the
      sanitised id, which is then cached in memory under the id asked for. */
  function Get(s: Store, id: string): (r: (Option<ProjectContext>, Store))
    ensures id in s.memory ==> r == (Some(s.memory[id]), s)
    ensures id !in s.memory && Sanitize(id) in s.files ==>
              && r.0 == Some(s.files[Sanitize(id)])
              && r.1.memory == s.memory[id := s.files[Sanitize(id)]]
              && r.1.order == s.order + [id]
    ensures id !in s.memory && Sanitize(id) !in s.files ==> r == (None, s)
    ensures r.1.files == s.files
    ensures Valid(s) ==> Valid(r.1)
    ensures FilesKeyed(s) && id !in s.memory && r.0.Some? ==>
              Sanitize(r.0.value.projectId) == Sanitize(id)
  {
    if id in s.memory then (Some(s.memory[id]), s)
    else if Sanitize(id) in s.files then
      var p := s.files[Sanitize(id)];
      (Some(p), Remember(s, id, p))
    else (None, s)
  }

  /** Python's `del memory[key]` on the insertion order. */
  function Without(order: seq<string>, key: string): (r: seq<string>)
    ensures forall k :: k in r <==> k in order && k != key
    ensures Distinct(order) ==> Distinct(r)
  {
    if order == [] then []
    else
      var rest := Without(order[1..], key);
      assert Distinct(order) ==> Distinct(order[1..]) && order[0] !in order[1..] by {
        if Distinct(order) { DistinctTail(order); }
      }
      if order[0] == key then rest
      else
        assert Distinct(order) ==> Distinct([order[0]] + rest) by {
          if Distinct(order) { DistinctCons(order[0], rest); }
        }
        [order[0]] + rest
  }

  /** Removing a key that does not occur changes nothing. */
  lemma {:induction false} WithoutAbsent(order: seq<string>, key: string)
    requires key !in order
    ensures Without(order, key) == order
  {
    if order != [] {
      assert key !in order[1..];
      WithoutAbsent(order[1..], key);
    }
  }

  /** Removing the key at position `i` of a duplicate-free order closes the
      gap: the keys before and after it keep their relative order. */
  lemma {:induction false} WithoutAt(order: seq<string>, key: string, i: nat)
    requires Distinct(order) && i < |order| && order[i] == key
    ensures Without(order, key) == order[..i] + order[i + 1..]
  {
    DistinctTail(order);
    if i == 0 {
      WithoutAbsent(order[1..], key);
    } else {
      assert order[0] != key;
      WithoutAt(order[1..], key, i - 1);
      assert order[1..][..i - 1] == order[1..i];
      assert order[1..][i..] == order[i + 1..];
      assert order[..i] == [order[0]] + order[1..i];
    }
  }

  /** `delete(project_id, delete_file)`: drops the memory entry and, when
      asked, the file; reports whether anything was removed. */
  function Delete(s: Store, id: string, deleteFile: bool): (r: (bool, Store))
    ensures r.0 <==> id in s.memory || (deleteFile && Sanitize(id) in s.files)
    ensures r.1.memory == s.memory - {id}
    ensures deleteFile ==> r.1.files == s.files - {Sanitize(id)}
    ensures !deleteFile ==> r.1.files == s.files
    ensures Valid(s) ==> Valid(r.1)
    ensures FilesKeyed(s) ==> FilesKeyed(r.1)
    ensures Valid(s) && id !in s.memory ==> r.1.order == s.order
    ensures Valid(s) ==>
              forall i :: 0 <= i < |s.order| && s.order[i] == id ==>
                r.1.order == s.order[..i] + s.order[i + 1..]
  {
    assert Valid(s) && id !in s.memory ==> Without(s.order, id) == s.order by {
      if Valid(s) && id !in s.memory { WithoutAbsent(s.order, id); }
    }
    assert Valid(s) ==>
             forall i :: 0 <= i < |s.order| && s.order[i] == id ==>
               Without(s.order, id) == s.order[..i] + s.order[i + 1..] by {
      if Valid(s) {
        forall i | 0 <= i < |s.order| && s.order[i] == id
          ensures Without(s.order, id) == s.order[..i] + s.order[i + 1..]
        {
          WithoutAt(s.order, id, i);
        }
      }
    }
    var fileHit := deleteFile && Sanitize(id) in s.files;
    var files := if fileHit then s.files - {Sanitize(id)} else s.files;
    (id in s.memory || fileHit, Store(s.memory - {id}, Without(s.order, id), files))
  }

  // ---------------------------------------------------------------------
  // get_by_name / list_projects
  // ---------------------------------------------------------------------

  /** The position of the first key in `keys[from..]` whose record is named
      `name`, scanning in order. */
  function FirstNamed(keys: seq<string>, tier: map<string, ProjectContext>, name: string, from: nat): (r: Option<nat>)
    requires from <= |keys|
    requires forall i :: 0 <= i < |keys| ==> keys[i] in tier
    ensures r.Some? ==> from <= r.value < |keys| && tier[keys[r.value]].projectName == name
    ensures r.Some? ==> forall j :: from <= j < r.value ==> tier[keys[j]].projectName != name
    ensures r.None? ==> forall j :: from <= j < |keys| ==> tier[keys[j]].projectName != name
    decreases |keys| - from
  {
    if from == |keys| then None
    else if tier[keys[from]].projectName == name then Some(from)
    else FirstNamed(keys, tier, name, from + 1)
  }

  /** Some memory record is named `name`. */
  predicate NamedInMemory(s: Store, name: string)
  {
    exists k :: k in s.memory && s.memory[k].projectName == name
  }

  /** Some file record is named `name`. */
  predicate NamedInFiles(s: Store, name: string)
  {
    exists k :: k in s.files && s.files[k].projectName == name
  }

  /** `get_by_name(project_name)`: the first memory record with that name in
      insertion order; failing that, the first file with that name in
      directory scan order. */
  function GetByName(s: Store, name: string, glob: seq<string>): (r: Option<ProjectContext>)
    requires Valid(s) && Enumerates(glob, s.files)
    ensures r.Some? ==> r.value.projectName == name
    ensures r.None? <==> !NamedInMemory(s, name) && !NamedInFiles(s, name)
    ensures NamedInMemory(s, name) ==>
              exists i :: 0 <= i < |s.order| && r == Some(s.memory[s.order[i]])
                && forall j :: 0 <= j < i ==> s.memory[s.order[j]].projectName != name
    ensures !NamedInMemory(s, name) && r.Some? ==> exists k :: k in s.files && r.value == s.files[k]
  {
    match FirstNamed(s.order, s.memory, name, 0)
    case Some(i) => Some(s.memory[s.order[i]])
    case None =>
      assert !NamedInMemory(s, name) by {
        forall k | k in s.memory ensures s.memory[k].projectName != name {
          var i :| 0 <= i < |s.order| && s.order[i] == k;
        }
      }
      match FirstNamed(glob, s.files, name, 0)
      case Some(i) => Some(s.files[glob[i]])
      case None =>
        assert !NamedInFiles(s, name) by {
          forall k | k in s.files ensures s.files[k].projectName != name {
            var i :| 0 <= i < |glob| && glob[i] == k;
          }
        }
        None
  }

  /** Where a listed project was found. */
  datatype Source = FromMemory | FromFile

  /** One row of `list_projects`. */
  datatype ListEntry = ListEntry(projectId: string, projectName: string, updatedAt: string, source: Source)

  /** The row a memory entry contributes: the key is the id shown. */
  function MemoryRow(key: string, p: ProjectContext): ListEntry
  {
    ListEntry(key, p.projectName, p.updatedAt, FromMemory)
  }

  /** The row a file contributes: the id recorded inside the file is shown. */
  function FileRow(p: ProjectContext): ListEntry
  {
    ListEntry(p.projectId, p.projectName, p.updatedAt, FromFile)
  }

  /** The ids a listing mentions. */
  function IdsOf(es: seq<ListEntry>): set<string>
  {
    set i | 0 <= i < |es| :: es[i].projectId
  }

  /** Every listed id is listed once. */
  predicate UniqueIds(es: seq<ListEntry>)
  {
    forall i, j :: 0 <= i < j < |es| ==> es[i].projectId != es[j].projectId
  }

  /** The non-empty project ids recorded in the files. */
  function FileIds(files: map<string, ProjectContext>): set<string>
  {
    set k | k in files && files[k].projectId != "" :: files[k].projectId
  }

  /** The non-empty project ids recorded in the files `glob` visits. */
  function ScannedIds(glob: seq<string>, files: map<string, ProjectContext>): set<string>
    requires forall i :: 0 <= i < |glob| ==> glob[i] in files
  {
    set i | 0 <= i < |glob| && files[glob[i]].projectId != "" :: files[glob[i]].projectId
  }

  lemma IdsOfAppend(a: seq<ListEntry>, b: seq<ListEntry>)
    ensures IdsOf(a + b) == IdsOf(a) + IdsOf(b)
  {
    forall id | id in IdsOf(a + b) ensures id in IdsOf(a) + IdsOf(b) {
      var i :| 0 <= i < |a + b| && (a + b)[i].projectId == id;
      if i >= |a| { assert b[i - |a|].projectId == id; }
    }
    forall id | id in IdsOf(a) + IdsOf(b) ensures id in IdsOf(a + b) {
      if id in IdsOf(a) {
        var i :| 0 <= i < |a| && a[i].projectId == id;
        assert (a + b)[i].projectId == id;
      } else {
        var i :| 0 <= i < |b| && b[i].projectId == id;
        assert (a + b)[|a| + i].projectId == id;
      }
    }
  }

  lemma ScannedIdsCons(glob: seq<string>, files: map<string, ProjectContext>)
    requires glob != []
    requires forall i :: 0 <= i < |glob| ==> glob[i] in files
    ensures ScannedIds(glob, files)
            == (if files[glob[0]].projectId != "" then {files[glob[0]].projectId} else {})
               + ScannedIds(glob[1..], files)
  {
    var tail := glob[1..];
    assert forall i :: 1 <= i < |glob| ==> glob[i] == tail[i - 1];
    forall id | id in ScannedIds(glob, files)
      ensures id in (if files[glob[0]].projectId != "" then {files[glob[0]].projectId} else {})
                    + ScannedIds(tail, files)
    {
      var i :| 0 <= i < |glob| && files[glob[i]].projectId != "" && files[glob[i]].projectId == id;
      if i > 0 { assert files[tail[i - 1]].projectId == id; }
    }
    forall id | id in ScannedIds(tail, files) ensures id in ScannedIds(glob, files) {
      var i :| 0 <= i < |tail| && files[tail[i]].projectId != "" && files[tail[i]].projectId == id;
      assert files[glob[i + 1]].projectId == id;
    }
  }

  /** The memory part of the listing, in insertion order. */
  function MemoryEntries(order: seq<string>, memory: map<string, ProjectContext>): (r: seq<ListEntry>)
    requires forall i :: 0 <= i < |order| ==> order[i] in memory
    ensures |r| == |order|
    ensures forall i :: 0 <= i < |r| ==> r[i] == MemoryRow(order[i], memory[order[i]])
  {
    if order == [] then []
    else [MemoryRow(order[0], memory[order[0]])] + MemoryEntries(order[1..], memory)
  }

  /** The file part of the listing: files visited in `glob` order, skipping
      a record whose id is empty or already `seen`. */
  function FileEntries(glob: seq<string>, files: map<string, ProjectContext>, seen: set<string>): (r: seq<ListEntry>)
    requires forall i :: 0 <= i < |glob| ==> glob[i] in files
    ensures UniqueIds(r)
    ensures IdsOf(r) == ScannedIds(glob, files) - seen
    ensures forall e :: e in r ==> exists i :: 0 <= i < |glob| && e == FileRow(files[glob[i]])
  {
    if glob == [] then []
    else
      var p := files[glob[0]];
      var isNew := p.projectId != "" && p.projectId !in seen;
      var rest := FileEntries(glob[1..], files, if isNew then seen + {p.projectId} else seen);
      var r := if isNew then [FileRow(p)] + rest else rest;
      ScannedIdsCons(glob, files);
      IdsOfAppend([FileRow(p)], rest);
      assert IdsOf([FileRow(p)]) == {p.projectId} by {
        assert [FileRow(p)][0].projectId == p.projectId;
      }
      assert forall i :: 1 <= i < |glob| ==> glob[i] == glob[1..][i - 1];
      assert forall e :: e in r ==> exists i :: 0 <= i < |glob| && e == FileRow(files[glob[i]]) by {
        forall e | e in r ensures exists i :: 0 <= i < |glob| && e == FileRow(files[glob[i]]) {
          if e in rest {
            var i :| 0 <= i < |glob[1..]| && e == FileRow(files[glob[1..][i]]);
            assert e == FileRow(files[glob[i + 1]]);
          } else {
            assert e == FileRow(files[glob[0]]);
          }
        }
      }
      assert UniqueIds(r) by {
        if isNew {
          forall j | 0 <= j < |rest| ensures rest[j].projectId != p.projectId {
            assert rest[j].projectId in IdsOf(rest);
          }
        }
      }
      r
  }

  /** `list_projects()`: every memory entry in insertion order, then every
      file whose id is non-empty and not already listed. */
  function ListProjects(s: Store, glob: seq<string>): (r: seq<ListEntry>)
    requires Valid(s) && Enumerates(glob, s.files)
    ensures UniqueIds(r)
    ensures IdsOf(r) == s.memory.Keys + FileIds(s.files)
    ensures forall i :: 0 <= i < |s.order| ==> i < |r| && r[i] == MemoryRow(s.order[i], s.memory[s.order[i]])
    ensures forall e :: e in r && e.projectId in s.memory ==> e == MemoryRow(e.projectId, s.memory[e.projectId])
    ensures forall e :: e in r && e.projectId !in s.memory ==> exists k :: k in s.files && e == FileRow(s.files[k])
  {
    var mem := MemoryEntries(s.order, s.memory);
    var fil := FileEntries(glob, s.files, s.memory.Keys);
    ListProjectsProps(s, glob, mem, fil);
    mem + fil
  }

  lemma ListProjectsProps(s: Store, glob: seq<string>, mem: seq<ListEntry>, fil: seq<ListEntry>)
    requires Valid(s) && Enumerates(glob, s.files)
    requires mem == MemoryEntries(s.order, s.memory)
    requires fil == FileEntries(glob, s.files, s.memory.Keys)
    ensures UniqueIds(mem + fil)
    ensures IdsOf(mem + fil) == s.memory.Keys + FileIds(s.files)
    ensures forall e :: e in mem + fil && e.projectId in s.memory ==> e == MemoryRow(e.projectId, s.memory[e.projectId])
    ensures forall e :: e in mem + fil && e.projectId !in s.memory ==> exists k :: k in s.files && e == FileRow(s.files[k])
  {
    MemoryIds(s, mem);
    ScannedIdsAreFileIds(s, glob);
    IdsOfAppend(mem, fil);
    UniqueAppend(mem, fil);
    ListedRows(s, glob, mem, fil);
  }

  lemma ListedRows(s: Store, glob: seq<string>, mem: seq<ListEntry>, fil: seq<ListEntry>)
    requires Valid(s) && Enumerates(glob, s.files)
    requires mem == MemoryEntries(s.order, s.memory)
    requires fil == FileEntries(glob, s.files, s.memory.Keys)
    ensures forall e :: e in mem + fil && e.projectId in s.memory ==> e == MemoryRow(e.projectId, s.memory[e.projectId])
    ensures forall e :: e in mem + fil && e.projectId !in s.memory ==> exists k :: k in s.files && e == FileRow(s.files[k])
  {
    forall e | e in mem + fil
      ensures e.projectId in s.memory ==> e == MemoryRow(e.projectId, s.memory[e.projectId])
      ensures e.projectId !in s.memory ==> exists k :: k in s.files && e == FileRow(s.files[k])
    {
      if e in mem {
        var i :| 0 <= i < |mem| && mem[i] == e;
      } else {
        var i :| 0 <= i < |fil| && fil[i] == e;
        assert e.projectId in IdsOf(fil);
        var j :| 0 <= j < |glob| && e == FileRow(s.files[glob[j]]);
      }
    }
  }

  lemma MemoryIds(s: Store, mem: seq<ListEntry>)
    requires Valid(s)
    requires mem == MemoryEntries(s.order, s.memory)
    ensures IdsOf(mem) == s.memory.Keys
    ensures UniqueIds(mem)
  {
    forall k | k in s.memory ensures k in IdsOf(mem) {
      var i :| 0 <= i < |s.order| && s.order[i] == k;
      assert mem[i].projectId == k;
    }
    MemoryUnique(s, mem);
  }

  lemma MemoryUnique(s: Store, mem: seq<ListEntry>)
    requires Valid(s)
    requires mem == MemoryEntries(s.order, s.memory)
    ensures UniqueIds(mem)
  {
    forall i, j | 0 <= i < j < |mem| ensures mem[i].projectId != mem[j].projectId {
      assert mem[i].projectId == s.order[i] && mem[j].projectId == s.order[j];
    }
  }

  lemma ScannedIdsAreFileIds(s: Store, glob: seq<string>)
    requires Enumerates(glob, s.files)
    ensures ScannedIds(glob, s.files) == FileIds(s.files)
  {
    forall id | id in FileIds(s.files) ensures id in ScannedIds(glob, s.files) {
      var k :| k in s.files && s.files[k].projectId != "" && s.files[k].projectId == id;
      var i :| 0 <= i < |glob| && glob[i] == k;
    }
  }

  /** Two listings with unique ids and no id in common list every id once. */
  lemma UniqueAppend(a: seq<ListEntry>, b: seq<ListEntry>)
    requires UniqueIds(a) && UniqueIds(b) && IdsOf(a) !! IdsOf(b)
    ensures UniqueIds(a + b)
  {
    var r := a + b;
    forall i, j | 0 <= i < j < |r| ensures r[i].projectId != r[j].projectId {
      if j < |a| {
        assert r[i] == a[i] && r[j] == a[j];
      } else if i < |a| {
        assert r[i] == a[i] && r[j] == b[j - |a|];
        assert a[i].projectId in IdsOf(a) && b[j - |a|].projectId in IdsOf(b);
      } else {
        assert r[i] == b[i - |a|] && r[j] == b[j - |a|];
      }
    }
  }
}
