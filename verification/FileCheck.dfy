/**
 The file check: the source of a sync sends the paths and hashes it has, and the destination brings its records in
 line and asks for the files it lacks.
 */
module FileCheck {
  import opened ProxyTypes
  import opened StorageNode

  type Path = string
  type HashCode = string

  datatype Entry = Entry(path: Path, hash: HashCode)

  /** A refused check is answered with an error. A broken one follows a null pointer or frees an unset one. */
  datatype Check<+T> = Checked(value: T) | Refused | Broken
  {
    predicate IsFailure() {
      !Checked?
    }

    function PropagateFailure<U>(): Check<U>
      requires !Checked?
    {
      if Refused? then Refused else Broken
    }

    function Extract(): T
      requires Checked?
    {
      value
    }
  }

  /** Where the last `ch` is, or |s|. */
  function LastOf(s: string, ch: char): (i: nat)
    ensures i <= |s|
    ensures i < |s| ==> s[i] == ch && forall j :: i < j < |s| ==> s[j] != ch
    ensures i == |s| ==> ch !in s
  {
    if s == [] then 0
    else if s[|s| - 1] == ch then |s| - 1
    else
      var i := LastOf(s[..|s| - 1], ch);
      assert s == s[..|s| - 1] + [s[|s| - 1]];
      if i == |s| - 1 then |s| else i
  }

  predicate IsDb(path: Path) {
    path[LastOf(path, '.')..] == ".db"
  }

  lemma DbSuffix(path: Path)
    ensures IsDb(path) <==> |path| >= 3 && path[|path| - 3..] == ".db"
  {
    if |path| >= 3 && path[|path| - 3..] == ".db" {
      var i := LastOf(path, '.');
      var tail := path[|path| - 3..];
      assert path[|path| - 3] == tail[0] && path[|path| - 2] == tail[1] && path[|path| - 1] == tail[2];
      assert '.' in path;
    }
  }

  /** The hash on record; an empty one stands for none. */
  function Local(records: map<Path, HashCode>, path: Path): HashCode {
    if path in records then records[path] else ""
  }

  /** The hash of each file that can be opened. */
  type Files = Path -> Option<HashCode>

  function CheckOne(records: map<Path, HashCode>, files: Files, e: Entry): Check<(map<Path, HashCode>, bool)> {
    if '.' !in e.path then Broken
    else if IsDb(e.path) then
      if files(e.path).None? then Refused else Checked((records, files(e.path).value != e.hash))
    else if '/' !in e.path then Broken
    else
      Checked((if e.path in records then records else records[e.path := e.hash], Local(records, e.path) != e.hash))
  }

  function CheckAll(records: map<Path, HashCode>, files: Files, entries: seq<Entry>)
    : Check<(map<Path, HashCode>, seq<Path>)>
    decreases |entries|
  {
    if entries == [] then Checked((records, []))
    else
      var e := entries[|entries| - 1];
      var (records1, asked) :- CheckAll(records, files, entries[..|entries| - 1]);
      var (records2, asks) :- CheckOne(records1, files, e);
      Checked((records2, if asks then asked + [e.path] else asked))
  }

  /** The records when the loop over the entries ends, at its end or at the entry that stops it. */
  function RecordsAfter(records: map<Path, HashCode>, files: Files, entries: seq<Entry>): map<Path, HashCode>
    decreases |entries|
  {
    if entries == [] then records
    else
      var e, rest := entries[|entries| - 1], entries[..|entries| - 1];
      if !CheckAll(records, files, rest).Checked? then RecordsAfter(records, files, rest)
      else
        var records1 := CheckAll(records, files, rest).value.0;
        if CheckOne(records1, files, e).Checked? then CheckOne(records1, files, e).value.0 else records1
  }

  predicate Reported(entries: seq<Entry>, path: Path) {
    exists e :: e in entries && e.path == path
  }

  /** The records without those of `before` that were not reported. */
  function Kept(records: map<Path, HashCode>, before: map<Path, HashCode>, entries: seq<Entry>): map<Path, HashCode> {
    map p | p in records && (p !in before || Reported(entries, p)) :: records[p]
  }

  function Reconciled(records: map<Path, HashCode>, files: Files, entries: seq<Entry>)
    : Check<(map<Path, HashCode>, seq<Path>)>
  {
    var (records', asked) :- CheckAll(records, files, entries);
    Checked((Kept(records', records, entries), asked))
  }

  // ---------------------------------------------------------------------------------------------
  // What a check does
  // ---------------------------------------------------------------------------------------------

  ghost predicate DistinctPaths(entries: seq<Entry>) {
    forall i, j :: 0 <= i < j < |entries| ==> entries[i].path != entries[j].path
  }

  /** The entry can be checked. */
  ghost predicate Checkable(files: Files, e: Entry) {
    '.' in e.path && if IsDb(e.path) then files(e.path).Some? else '/' in e.path
  }

  /** The file is missing or different: against the records, or for a database against the file. */
  ghost predicate Needed(records: map<Path, HashCode>, files: Files, e: Entry) {
    if IsDb(e.path) then files(e.path) != Some(e.hash) else Local(records, e.path) != e.hash
  }

  ghost function NeededPaths(records: map<Path, HashCode>, files: Files, entries: seq<Entry>): seq<Path>
    decreases |entries|
  {
    if entries == [] then []
    else
      var e := entries[|entries| - 1];
      NeededPaths(records, files, entries[..|entries| - 1]) + if Needed(records, files, e) then [e.path] else []
  }

  lemma {:induction false} NeededPathsAre(records: map<Path, HashCode>, files: Files, entries: seq<Entry>, p: Path)
    ensures p in NeededPaths(records, files, entries) <==>
            exists e :: e in entries && e.path == p && Needed(records, files, e)
    decreases |entries|
  {
    if entries != [] {
      var rest, e := entries[..|entries| - 1], entries[|entries| - 1];
      assert entries == rest + [e];
      NeededPathsAre(records, files, rest, p);
    }
  }

  /** What the records are after the entries: the old ones, and the reported data files that were missing. */
  ghost predicate Recorded(records: map<Path, HashCode>, entries: seq<Entry>, records': map<Path, HashCode>) {
    && (forall p :: p in records' <==> p in records || (Reported(entries, p) && !IsDb(p)))
    && (forall p :: p in records ==> records'[p] == records[p])
    && (forall e :: e in entries && !IsDb(e.path) && e.path !in records ==>
        e.path in records' && records'[e.path] == e.hash)
  }

  lemma ReportedAfter(entries: seq<Entry>, e: Entry, p: Path)
    ensures Reported(entries + [e], p) <==> Reported(entries, p) || p == e.path
  {
    assert e in entries + [e];
  }

  lemma RecordedNext(records: map<Path, HashCode>, entries: seq<Entry>, records1: map<Path, HashCode>, e: Entry)
    requires Recorded(records, entries, records1) && !Reported(entries, e.path) && !IsDb(e.path)
    ensures Recorded(records, entries + [e], if e.path in records1 then records1 else records1[e.path := e.hash])
  {
    forall p
      ensures Reported(entries + [e], p) <==> Reported(entries, p) || p == e.path
    {
      ReportedAfter(entries, e, p);
    }
  }

  lemma RecordedSame(records: map<Path, HashCode>, entries: seq<Entry>, records1: map<Path, HashCode>, e: Entry)
    requires Recorded(records, entries, records1) && IsDb(e.path)
    ensures Recorded(records, entries + [e], records1)
  {
    forall p
      ensures Reported(entries + [e], p) <==> Reported(entries, p) || p == e.path
    {
      ReportedAfter(entries, e, p);
    }
  }

  lemma CheckOneIs(records: map<Path, HashCode>, files: Files, rest: seq<Entry>, records1: map<Path, HashCode>,
                   e: Entry)
    requires Recorded(records, rest, records1) && !Reported(rest, e.path)
    ensures CheckOne(records1, files, e).Checked? <==> Checkable(files, e)
    ensures CheckOne(records1, files, e).Checked? ==>
              var (records2, asks) := CheckOne(records1, files, e).value;
              Recorded(records, rest + [e], records2) && (asks <==> Needed(records, files, e))
  {
    if IsDb(e.path) {
      RecordedSame(records, rest, records1, e);
    } else {
      RecordedNext(records, rest, records1, e);
    }
  }

  ghost predicate AllCheckable(files: Files, entries: seq<Entry>) {
    forall e :: e in entries ==> Checkable(files, e)
  }

  /** The entries are all checked exactly when each can be; then what is asked for is what is needed, in order. */
  lemma {:induction false} CheckAllIs(records: map<Path, HashCode>, files: Files, entries: seq<Entry>)
    requires DistinctPaths(entries)
    ensures CheckAll(records, files, entries).Checked? <==> AllCheckable(files, entries)
    ensures CheckAll(records, files, entries).Checked? ==>
              var (records', asked) := CheckAll(records, files, entries).value;
              Recorded(records, entries, records') && asked == NeededPaths(records, files, entries)
    decreases |entries|
  {
    if entries != [] {
      var rest, e := entries[..|entries| - 1], entries[|entries| - 1];
      assert entries == rest + [e];
      CheckAllIs(records, files, rest);
      assert !Reported(rest, e.path);
      assert AllCheckable(files, entries) <==> AllCheckable(files, rest) && Checkable(files, e);
      var r := CheckAll(records, files, rest);
      if r.Checked? {
        CheckOneIs(records, files, rest, r.value.0, e);
      }
    }
  }

  /**
   The check reconciles: it succeeds exactly when every entry can be checked. Then the recorded data files are the
   reported ones, databases on record stay if reported, old records keep their hash, new ones have the reported hash,
   and exactly the missing and different files are asked for, in the order of the report.
   */
  lemma Reconciles(records: map<Path, HashCode>, files: Files, entries: seq<Entry>)
    requires DistinctPaths(entries)
    ensures Reconciled(records, files, entries).Checked? <==> AllCheckable(files, entries)
    ensures Reconciled(records, files, entries).Checked? ==>
              var (records', asked) := Reconciled(records, files, entries).value;
              && (forall p :: p in records' <==> Reported(entries, p) && (IsDb(p) ==> p in records))
              && (forall p :: p in records' && p in records ==> records'[p] == records[p])
              && (forall e :: e in entries && e.path in records' && e.path !in records ==> records'[e.path] == e.hash)
              && asked == NeededPaths(records, files, entries)
  {
    CheckAllIs(records, files, entries);
  }

  /** How many of the entries come before the first that cannot be checked. */
  ghost predicate FirstFailing(files: Files, entries: seq<Entry>, k: nat) {
    k < |entries| && !Checkable(files, entries[k]) && forall i :: 0 <= i < k ==> Checkable(files, entries[i])
  }

  /**
   The first entry that cannot be checked ends the check: with an error if it is a database that cannot be opened, and
   otherwise by following a null pointer. The data files before it are on record already; none is dropped.
   */
  lemma {:induction false} FailureIs(records: map<Path, HashCode>, files: Files, entries: seq<Entry>, k: nat)
    requires DistinctPaths(entries) && FirstFailing(files, entries, k)
    ensures Reconciled(records, files, entries) == if IsDb(entries[k].path) then Refused else Broken
    ensures Recorded(records, entries[..k], RecordsAfter(records, files, entries))
    decreases |entries|
  {
    var rest, e := entries[..|entries| - 1], entries[|entries| - 1];
    if k < |rest| {
      FailureEarlier(records, files, rest, e, k);
      assert entries == rest + [e];
      FailureIs(records, files, rest, k);
    } else {
      FailureLast(records, files, rest, e);
      assert entries == rest + [e] && entries[..k] == rest;
    }
  }

  lemma FailureEarlier(records: map<Path, HashCode>, files: Files, rest: seq<Entry>, e: Entry, k: nat)
    requires DistinctPaths(rest + [e]) && k < |rest| && FirstFailing(files, rest + [e], k)
    ensures DistinctPaths(rest) && FirstFailing(files, rest, k)
    ensures rest[k] == (rest + [e])[k] && rest[..k] == (rest + [e])[..k]
    ensures !CheckAll(records, files, rest).Checked? ==>
              && Reconciled(records, files, rest + [e]) == Reconciled(records, files, rest)
              && RecordsAfter(records, files, rest + [e]) == RecordsAfter(records, files, rest)
  {
    var entries := rest + [e];
    assert entries[..|entries| - 1] == rest;
    assert forall i :: 0 <= i < |rest| ==> rest[i] == entries[i];
  }

  lemma FailureLast(records: map<Path, HashCode>, files: Files, rest: seq<Entry>, e: Entry)
    requires DistinctPaths(rest + [e]) && FirstFailing(files, rest + [e], |rest|)
    ensures Reconciled(records, files, rest + [e]) == if IsDb(e.path) then Refused else Broken
    ensures Recorded(records, rest, RecordsAfter(records, files, rest + [e]))
  {
    var entries := rest + [e];
    assert entries[..|entries| - 1] == rest;
    assert forall i :: 0 <= i < |rest| ==> rest[i] == entries[i];
    CheckAllIs(records, files, rest);
    if IsDb(e.path) {
      DbHasDot(e.path);
    }
  }

  lemma DbHasDot(path: Path)
    requires IsDb(path)
    ensures '.' in path
  {
    assert path[LastOf(path, '.')] == '.';
  }

  /** The same report again, with nothing changed in between, needs exactly what had another hash on record. */
  lemma SecondCheck(records: map<Path, HashCode>, files: Files, entries: seq<Entry>)
    requires DistinctPaths(entries) && AllCheckable(files, entries)
    ensures Reconciled(records, files, entries).Checked?
    ensures var records' := Reconciled(records, files, entries).value.0;
            && Reconciled(records', files, entries).Checked?
            && Reconciled(records', files, entries).value.0 == records'
            && (forall p :: p in Reconciled(records', files, entries).value.1 <==>
                            exists e :: e in entries && e.path == p && Needed(records, files, e)
                              && (IsDb(p) || p in records))
  {
    Reconciles(records, files, entries);
    var records' := Reconciled(records, files, entries).value.0;
    Reconciles(records', files, entries);
    var (records'', asked) := Reconciled(records', files, entries).value;
    assert forall p :: p in records'' <==> p in records';
    forall e | e in entries
      ensures Needed(records', files, e) <==> Needed(records, files, e) && (IsDb(e.path) || e.path in records)
    {
      assert Reported(entries, e.path);
    }
    forall p
      ensures p in asked <==>
              exists e :: e in entries && e.path == p && Needed(records, files, e) && (IsDb(p) || p in records)
    {
      NeededPathsAre(records', files, entries, p);
    }
  }

  // ---------------------------------------------------------------------------------------------
  // The reply
  // ---------------------------------------------------------------------------------------------

  /**
   Two statements of the handler, repaired or as written:
   - comparesVersion: the vnode's own version is compared with the sent one, and no unset buffer is freed; as written
     the status just assigned, 2, is compared, and an unset buffer is freed (storage_msg_parser.cpp:133-136);
   - keepsSlots: each asked path has a slot of its own; as written each is put in the first slot (:217).
   */
  datatype Handling = Handling(comparesVersion: bool, keepsSlots: bool)

  /** The slots of the reply. None is a slot that was never written. */
  function Slots(keepsSlots: bool, asked: seq<Path>): (slots: seq<Option<Path>>)
    ensures |slots| == |asked|
  {
    if keepsSlots then seq(|asked|, i requires 0 <= i < |asked| => Some(asked[i]))
    else seq(|asked|, i requires 0 <= i < |asked| => if i == 0 then Some(asked[|asked| - 1]) else None)
  }

  /** As written, the reply is right exactly when it asks for at most one file. */
  lemma OneSlot(asked: seq<Path>)
    ensures Slots(false, asked) == Slots(true, asked) <==> |asked| <= 1
  {
    if |asked| > 1 {
      assert Slots(false, asked)[1] == None && Slots(true, asked)[1] == Some(asked[1]);
    }
  }

  /** Is the vnode there, and found to be up to date? */
  predicate UpToDate(handling: Handling, list: seq<StorageVnode>, id: int, version: int) {
    var i := Place(list, id);
    i < |list| && if handling.comparesVersion then list[i].version == version else 2 == version
  }

  /** The answer to a file check, and the records it leaves. */
  function Answered(handling: Handling, list: seq<StorageVnode>, records: map<Path, HashCode>, files: Files, id: int,
                    version: int, entries: seq<Entry>): Check<(map<Path, HashCode>, seq<Option<Path>>)>
  {
    if UpToDate(handling, list, id, version) then
      if handling.comparesVersion then Checked((records, [])) else Broken
    else
      var (records', asked) :- Reconciled(records, files, entries);
      Checked((records', Slots(handling.keepsSlots, asked)))
  }

  /** The vnode is new, or its version differs from the sent one, which is not 2. */
  predicate VersionsTell(list: seq<StorageVnode>, id: int, version: int) {
    var i := Place(list, id);
    i == |list| || (list[i].version != version && version != 2)
  }

  /** As written, the test on the version answers as the repaired one, whatever is checked, exactly in these cases. */
  lemma StatusIsNoVersion(list: seq<StorageVnode>, id: int, version: int, keepsSlots: bool)
    ensures (forall records: map<Path, HashCode>, files: Files, entries: seq<Entry> ::
               Answered(Handling(false, keepsSlots), list, records, files, id, version, entries)
               == Answered(Handling(true, keepsSlots), list, records, files, id, version, entries))
            <==> VersionsTell(list, id, version)
  {
    var as_, repaired := Handling(false, keepsSlots), Handling(true, keepsSlots);
    if !VersionsTell(list, id, version) {
      var records: map<Path, HashCode>, files: Files := map["a" := "b"], _ => None;
      assert Reconciled(records, files, []) == Checked((map[], []));
      assert "a" in records;
      assert Answered(as_, list, records, files, id, version, []) != Answered(repaired, list, records, files, id,
               version, []);
    }
  }

  /**
   Repaired: a vnode that has the sent version asks for nothing and leaves the records. Otherwise the check is answered
   exactly when every entry can be checked, with the needed paths, each in its slot, in the order of the report.
   */
  lemma RepairedCheck(list: seq<StorageVnode>, records: map<Path, HashCode>, files: Files, id: int, version: int,
                      entries: seq<Entry>)
    requires UniqueIds(list) && DistinctPaths(entries)
    ensures var r := Answered(Handling(true, true), list, records, files, id, version, entries);
            if exists w :: w in list && w.id == id && w.version == version then r == Checked((records, []))
            else
              && (r.Checked? <==> AllCheckable(files, entries))
              && (r.Checked? ==>
                    && r.value.0 == Reconciled(records, files, entries).value.0
                    && |r.value.1| == |NeededPaths(records, files, entries)|
                    && forall i :: 0 <= i < |r.value.1| ==>
                         r.value.1[i] == Some(NeededPaths(records, files, entries)[i]))
  {
    var i := Place(list, id);
    if i < |list| {
      assert list[i] in list;
    }
    Reconciles(records, files, entries);
  }

  class TbHashCode {
    var records: map<Path, HashCode>

    constructor ()
      ensures records == map[]
    {
      records := map[];
    }

    method QueryByPath(path: Path) returns (hash: Option<HashCode>)
      ensures hash == if path in records then Some(records[path]) else None
    {
      hash := if path in records then Some(records[path]) else None;
    }

    method QueryAll() returns (paths: seq<Path>)
      ensures forall p :: p in paths <==> p in records
      ensures forall i, j :: 0 <= i < j < |paths| ==> paths[i] != paths[j]
    {
      paths := [];
      var left := records.Keys;
      while left != {}
        invariant left <= records.Keys && forall p :: p in paths <==> p in records && p !in left
        invariant forall i, j :: 0 <= i < j < |paths| ==> paths[i] != paths[j]
        decreases |left|
      {
        var p :| p in left;
        paths, left := paths + [p], left - {p};
      }
    }

    /** The primary key refuses a second record of a path. */
    method InsertRecord(e: Entry)
      modifies this
      ensures records == if e.path in old(records) then old(records) else old(records)[e.path := e.hash]
    {
      if e.path !in records {
        records := records[e.path := e.hash];
      }
    }

    method DeleteRecord(path: Path)
      modifies this
      ensures records == old(records) - {path}
    {
      records := records - {path};
    }
  }

  class StorageMsgParser {
    const container: VnodeContainer
    const table: TbHashCode
    var unlinked: seq<Path>

    constructor (container: VnodeContainer, table: TbHashCode)
      ensures this.container == container && this.table == table && unlinked == []
    {
      this.container, this.table, unlinked := container, table, [];
    }

    method DoDataFileCheck(e: Entry) returns (asks: bool)
      modifies table
      ensures table.records == if e.path in old(table.records) then old(table.records)
              else old(table.records)[e.path := e.hash]
      ensures asks <==> Local(old(table.records), e.path) != e.hash
    {
      var hash := table.QueryByPath(e.path);
      if hash.None? {
        table.InsertRecord(e);
        return "" != e.hash;
      }
      return hash.value != e.hash;
    }

    method DoFileHashcodeCheck(files: Files, e: Entry) returns (res: Check<bool>)
      modifies table
      ensures match CheckOne(old(table.records), files, e)
              case Checked((records, asks)) => res == Checked(asks) && table.records == records
              case Refused => res == Refused && table.records == old(table.records)
              case Broken => res == Broken && table.records == old(table.records)
    {
      var dot := LastOf(e.path, '.');
      if dot == |e.path| {
        return Broken;
      }
      if e.path[dot..] == ".db" {
        var hash := files(e.path);
        if hash.None? {
          return Refused;
        }
        return Checked(hash.value != e.hash);
      }
      if '/' !in e.path {
        return Broken;
      }
      var asks := DoDataFileCheck(e);
      return Checked(asks);
    }

    /** Erases the first occurrence, if any. */
    static method Erase(paths: seq<Path>, path: Path) returns (rest: seq<Path>)
      requires forall i, j :: 0 <= i < j < |paths| ==> paths[i] != paths[j]
      ensures forall p :: p in rest <==> p in paths && p != path
      ensures forall i, j :: 0 <= i < j < |rest| ==> rest[i] != rest[j]
    {
      var k := 0;
      while k < |paths| && paths[k] != path
        invariant k <= |paths| && forall i :: 0 <= i < k ==> paths[i] != path
      {
        k := k + 1;
      }
      if k == |paths| {
        return paths;
      }
      rest := paths[..k] + paths[k + 1..];
      assert forall i :: 0 <= i < |rest| ==> rest[i] == paths[if i < k then i else i + 1];
      assert forall i :: 0 <= i < |paths| && i != k ==> paths[i] == rest[if i < k then i else i - 1];
    }

    /** Writes the slot of an asked path. */
    static method PutSlot(slots: array<Option<Path>>, keepsSlots: bool, count: nat, path: Path, ghost asked: seq<Path>)
      requires count == |asked| < slots.Length && slots[..count] == Slots(keepsSlots, asked)
      requires forall k :: count <= k < slots.Length ==> slots[k] == None
      modifies slots
      ensures slots[..count + 1] == Slots(keepsSlots, asked + [path])
      ensures forall k :: count + 1 <= k < slots.Length ==> slots[k] == None
    {
      SlotsNext(keepsSlots, asked, path);
      slots[if keepsSlots then count else 0] := Some(path);
    }

    /** The paths on record that were not reported, each once. */
    static ghost predicate LeftOver(paths: seq<Path>, records: map<Path, HashCode>, entries: seq<Entry>) {
      && (forall p :: p in paths <==> p in records && !Reported(entries, p))
      && (forall j, k :: 0 <= j < k < |paths| ==> paths[j] != paths[k])
    }

    static method EraseReported(paths: seq<Path>, e: Entry, ghost records: map<Path, HashCode>,
                                ghost entries: seq<Entry>) returns (rest: seq<Path>)
      requires LeftOver(paths, records, entries)
      ensures LeftOver(rest, records, entries + [e])
    {
      ReportedAll(entries, e);
      rest := Erase(paths, e.path);
    }

    /** One entry after `asked` was asked for by those before it. */
    method CheckNext(keepsSlots: bool, files: Files, e: Entry, slots: array<Option<Path>>, count: nat,
                     ghost asked: seq<Path>)
      returns (res: Check<bool>)
      requires count == |asked| < slots.Length && slots[..count] == Slots(keepsSlots, asked)
      requires forall k :: count <= k < slots.Length ==> slots[k] == None
      modifies table, slots
      ensures match CheckOne(old(table.records), files, e)
              case Checked((records, asks)) =>
                && res == Checked(asks) && table.records == records
                && var asked' := if asks then asked + [e.path] else asked;
                   && slots[..|asked'|] == Slots(keepsSlots, asked')
                   && forall k :: |asked'| <= k < slots.Length ==> slots[k] == None
              case Refused => res == Refused && table.records == old(table.records)
              case Broken => res == Broken && table.records == old(table.records)
    {
      res := DoFileHashcodeCheck(files, e);
      if res == Checked(true) {
        PutSlot(slots, keepsSlots, count, e.path, asked);
      }
    }

    /** How far the loop over the entries got: `entries` are done, `asked` were asked for. */
    ghost predicate Checking(before: map<Path, HashCode>, files: Files, keepsSlots: bool, entries: seq<Entry>,
                             asked: seq<Path>,
                             slots: array<Option<Path>>, leftOver: seq<Path>)
      reads table, slots
    {
      && CheckAll(before, files, entries) == Checked((table.records, asked))
      && |asked| <= |entries| && |asked| <= slots.Length && slots[..|asked|] == Slots(keepsSlots, asked)
      && (forall k :: |asked| <= k < slots.Length ==> slots[k] == None)
      && LeftOver(leftOver, before, entries)
    }

    method StartChecking(keepsSlots: bool, n: nat, ghost files: Files)
      returns (slots: array<Option<Path>>, leftOver: seq<Path>)
      ensures fresh(slots) && slots.Length == n
      ensures Checking(table.records, files, keepsSlots, [], [], slots, leftOver)
    {
      leftOver := table.QueryAll();
      slots := new Option<Path>[n](_ => None);
    }

    method CheckStep(files: Files, keepsSlots: bool, e: Entry, slots: array<Option<Path>>, count: nat,
                     leftOver: seq<Path>,
                     ghost before: map<Path, HashCode>, ghost entries: seq<Entry>, ghost asked: seq<Path>)
      returns (res: Check<bool>, leftOver': seq<Path>)
      requires Checking(before, files, keepsSlots, entries, asked, slots, leftOver) && count == |asked|
               && |entries| < slots.Length
      modifies table, slots
      ensures res.Checked? ==> Checking(before, files, keepsSlots, entries + [e],
                                        if res.value then asked + [e.path] else asked, slots, leftOver')
      ensures !res.Checked? ==> CheckAll(before, files, entries + [e]) == if res.Refused? then Refused else Broken
      ensures !res.Checked? ==> table.records == RecordsAfter(before, files, entries + [e])
    {
      CheckAllStep(before, files, entries, e);
      leftOver' := EraseReported(leftOver, e, before, entries);
      res := CheckNext(keepsSlots, files, e, slots, count, asked);
      if !res.Checked? {
        RecordsAfterStep(before, files, entries, e);
      }
    }

    /** The loop over the entries of the request, with the reply's slots. */
    method CheckEntries(keepsSlots: bool, files: Files, entries: seq<Entry>)
      returns (res: Check<seq<Option<Path>>>, leftOver: seq<Path>)
      modifies table
      ensures match CheckAll(old(table.records), files, entries)
              case Checked((records, asked)) => res == Checked(Slots(keepsSlots, asked)) && table.records == records
              case Refused => res == Refused
              case Broken => res == Broken
      ensures !res.Checked? ==> table.records == RecordsAfter(old(table.records), files, entries)
      ensures res.Checked? ==> LeftOver(leftOver, old(table.records), entries)
    {
      ghost var before := table.records;
      var slots;
      slots, leftOver := StartChecking(keepsSlots, |entries|, files);
      ghost var asked: seq<Path> := [];
      var count := 0;
      for i := 0 to |entries|
        invariant count == |asked| && Checking(before, files, keepsSlots, entries[..i], asked, slots, leftOver)
      {
        OneEntryMore(entries, i);
        var asks;
        asks, leftOver := CheckStep(files, keepsSlots, entries[i], slots, count, leftOver, before, entries[..i], asked);
        if !asks.Checked? {
          CheckAllFails(before, files, entries, i + 1);
          return if asks.Refused? then Refused else Broken, leftOver;
        }
        if asks.value {
          count, asked := count + 1, asked + [entries[i].path];
        }
      }
      assert entries[..|entries|] == entries;
      return Checked(slots[..count]), leftOver;
    }

    /** The records that nobody reported go, and their files. */
    method DropRecords(paths: seq<Path>)
      modifies table, this`unlinked
      ensures table.records == map p | p in old(table.records) && p !in paths :: old(table.records)[p]
      ensures unlinked == old(unlinked) + paths
    {
      for i := 0 to |paths|
        invariant table.records == map p | p in old(table.records) && p !in paths[..i] :: old(table.records)[p]
        invariant unlinked == old(unlinked) + paths[..i]
      {
        assert paths[..i + 1] == paths[..i] + [paths[i]];
        table.DeleteRecord(paths[i]);
        unlinked := unlinked + [paths[i]];
      }
      assert paths[..|paths|] == paths;
    }

    /** msg_file_check_handle, from the parsed request to the reply. */
    method FileCheckHandle(handling: Handling, files: Files, id: int, version: int, entries: seq<Entry>)
      returns (res: Check<seq<Option<Path>>>, ghost dropped: seq<Path>)
      modifies container, table, this`unlinked
      ensures if UpToDate(handling, old(container.list), id, version) then
                && table.records == old(table.records) && dropped == []
                && if handling.comparesVersion
                  then res == Checked([]) && container.list == Awaiting(old(container.list), id, version)
                   else res == Broken
              else
                && container.list == Awaiting(old(container.list), id, version)
                && match Reconciled(old(table.records), files, entries)
                   case Checked((records, asked)) =>
                     && res == Checked(Slots(handling.keepsSlots, asked)) && table.records == records
                     && LeftOver(dropped, old(table.records), entries)
                   case Refused => res == Refused && dropped == []
                   case Broken => res == Broken && dropped == []
      ensures !res.Checked? && !UpToDate(handling, old(container.list), id, version) ==>
                table.records == RecordsAfter(old(table.records), files, entries)
      ensures match Answered(handling, old(container.list), old(table.records), files, id, version, entries)
              case Checked((records, slots)) => res == Checked(slots) && table.records == records
              case Refused => res == Refused
              case Broken => res == Broken
      ensures unlinked == old(unlinked) + dropped
    {
      dropped := [];
      var i := container.GetVnode(id);
      if i < |container.list| {
        var mine := container.list[i].version;
        container.list := container.list[i := container.list[i].(status := WaitSync)];
        if handling.comparesVersion {
          if mine == version {
            return Checked([]), [];
          }
        } else if 2 == version {
          return Broken, [];
        }
        container.list := container.list[i := container.list[i].(version := version)];
      } else {
        container.AddVnode(StorageVnode(id, WaitSync, version));
      }
      var leftOver;
      res, leftOver := CheckEntries(handling.keepsSlots, files, entries);
      if res.Checked? {
        dropped := leftOver;
        DropRecords(leftOver);
      }
    }
  }

  lemma ReportedAll(entries: seq<Entry>, e: Entry)
    ensures forall p :: Reported(entries + [e], p) <==> Reported(entries, p) || p == e.path
  {
    forall p
      ensures Reported(entries + [e], p) <==> Reported(entries, p) || p == e.path
    {
      ReportedAfter(entries, e, p);
    }
  }

  lemma CheckAllStep(records: map<Path, HashCode>, files: Files, entries: seq<Entry>, e: Entry)
    requires CheckAll(records, files, entries).Checked?
    ensures var (records1, asked) := CheckAll(records, files, entries).value;
            CheckAll(records, files, entries + [e]) ==
            match CheckOne(records1, files, e)
            case Checked((records2, asks)) => Checked((records2, if asks then asked + [e.path] else asked))
            case Refused => Refused
            case Broken => Broken
  {
    assert (entries + [e])[..|entries|] == entries;
  }

  lemma OneEntryMore(entries: seq<Entry>, i: nat)
    requires i < |entries|
    ensures entries[..i + 1] == entries[..i] + [entries[i]]
  {
  }

  lemma RecordsAfterStep(records: map<Path, HashCode>, files: Files, entries: seq<Entry>, e: Entry)
    requires CheckAll(records, files, entries).Checked?
    requires !CheckOne(CheckAll(records, files, entries).value.0, files, e).Checked?
    ensures RecordsAfter(records, files, entries + [e]) == CheckAll(records, files, entries).value.0
  {
    assert (entries + [e])[..|entries|] == entries;
  }

  lemma SlotsNext(keepsSlots: bool, asked: seq<Path>, path: Path)
    ensures var n := |asked|; var slots := Slots(keepsSlots, asked);
            Slots(keepsSlots, asked + [path]) ==
            if keepsSlots || n == 0 then slots + [Some(path)] else slots[0 := Some(path)] + [None]
  {
  }

  lemma {:induction false} CheckAllFails(records: map<Path, HashCode>, files: Files, entries: seq<Entry>, k: nat)
    requires k <= |entries| && !CheckAll(records, files, entries[..k]).Checked?
    ensures CheckAll(records, files, entries) == CheckAll(records, files, entries[..k])
    ensures RecordsAfter(records, files, entries) == RecordsAfter(records, files, entries[..k])
    decreases |entries|
  {
    if k < |entries| {
      assert entries[..|entries| - 1][..k] == entries[..k];
      CheckAllFails(records, files, entries[..|entries| - 1], k);
    } else {
      assert entries[..k] == entries;
    }
  }
}
