/** Job records as the scheduler reports them, and the snapshot they are collected
    in: an insertion-ordered map from `"<ClusterId>.<ProcId>"` to the record. */
module Jobs {
  import opened Wrappers
  import opened Text
  import opened OrderedMaps

  /** The scheduler attributes the pipeline reads. Absent or null attributes are
      `None`, except `UserLog`, whose null the code does not treat as absent; the
      numeric ones the code uses unconditionally are plain values. */
  datatype Attrs = Attrs(
    jobStatus: int,                     // JobStatus
    jobCurrentStartDate: Option<int>,   // JobCurrentStartDate, epoch seconds
    completionDate: Option<int>,        // CompletionDate, epoch seconds (0 = not completed)
    site: Option<string>,               // MATCH_GLIDEIN_Site
    remoteHost: Option<string>,         // RemoteHost
    lastRemoteHost: Option<string>,     // LastRemoteHost
    remoteUserCpu: real,                // RemoteUserCpu, seconds
    cumulativeRemoteUserCpu: real,      // CumulativeRemoteUserCpu, seconds
    cumulativeSlotTime: Option<real>,   // CumulativeSlotTime, seconds
    numJobStarts: int,                  // NumJobStarts
    totalSubmitProcs: int,              // TotalSubmitProcs
    exitCode: Option<int>,              // ExitCode
    args: string,                       // Args
    userLog: LogAttr)                   // UserLog

  /** `UserLog` as a record carries it: absent, present but null, or a path. */
  datatype LogAttr = NoLog | NullLog | LogAt(path: string)

  /** `job.get('UserLog')`: the path, or `None` when it is absent or null. */
  function UserLogPath(a: Attrs): (r: Option<string>)
    ensures r.Some? <==> a.userLog.LogAt?
    ensures r.Some? ==> r.value == a.userLog.path
  {
    if a.userLog.LogAt? then Some(a.userLog.path) else None
  }

  /** One record: its two scheduler ids (either may be missing) and its attributes. */
  datatype Job = Job(clusterId: Option<int>, procId: Option<int>, attrs: Attrs)

  /** The snapshot key `'%d.%d' % (ClusterId, ProcId)`. */
  function IdKey(c: int, p: int): string {
    IntToString(c) + "." + IntToString(p)
  }

  /** The two halves of a key around its only dot are the printed ids. */
  lemma IdKeyParts(c: int, p: int)
    ensures BeforeFirst(IdKey(c, p), '.') == IntToString(c)
    ensures AfterLast(IdKey(c, p), '.') == IntToString(p)
  {
    var a := IntToString(c);
    var b := IntToString(p);
    var k := IdKey(c, p);
    assert k[..|a|] == a && k[|a|] == '.' && k[|a|+1..] == b;
  }

  /** Distinct id pairs never share a key. */
  lemma IdKeyInjective(c: int, p: int, c': int, p': int)
    requires IdKey(c, p) == IdKey(c', p')
    ensures c == c' && p == p'
  {
    IdKeyParts(c, p);
    IdKeyParts(c', p');
    IntToStringInjective(c, c');
    IntToStringInjective(p, p');
  }

  /** A snapshot: keys to records, in insertion order. */
  type Snapshot = seq<(string, Job)>

  /** A scheduler id as a JSON entry carries it: absent, an integer, or a value `%d`
      cannot format (null, text). */
  datatype IdField = Absent | IntId(n: int) | NotInt

  /** One entry of a JSON response or list file, before it is keyed. */
  datatype Item = Item(clusterId: IdField, procId: IdField, attrs: Attrs)

  /** The record an entry is stored as. */
  function JobOf(x: Item): (j: Job)
    requires x.clusterId.IntId? && x.procId.IntId?
    ensures j.clusterId == Some(x.clusterId.n) && j.procId == Some(x.procId.n) && j.attrs == x.attrs
  {
    Job(Some(x.clusterId.n), Some(x.procId.n), x.attrs)
  }

  /** Both ids are present and print as `k`. */
  predicate HasKey(x: Item, k: string) {
    x.clusterId.IntId? && x.procId.IntId? && IdKey(x.clusterId.n, x.procId.n) == k
  }

  /** Both ids are present but one is not an integer, so `'%d.%d'` raises. */
  predicate Malformed(x: Item) {
    x.clusterId != Absent && x.procId != Absent && (x.clusterId.NotInt? || x.procId.NotInt?)
  }

  const FormatError := "TypeError: %d format: a number is required"

  /** Adding one scheduler entry: stored under its key when both ids are present,
      dropped when either is absent, and the TypeError of `'%d.%d'` when one present id
      is not an integer. */
  function AddEntry(data: Snapshot, x: Item): (r: Result<Snapshot, string>)
    ensures r.Failure? <==> Malformed(x)
    ensures r.Success? && (x.clusterId.Absent? || x.procId.Absent?) ==> r.value == data
  {
    if x.clusterId.Absent? || x.procId.Absent? then Success(data)
    else if x.clusterId.NotInt? || x.procId.NotInt? then Failure(FormatError)
    else Success(Put(data, IdKey(x.clusterId.n, x.procId.n), JobOf(x)))
  }

  /** Adding a list of entries in order, as each JSON response is read: the first
      malformed entry raises. */
  function AddEntries(data: Snapshot, items: seq<Item>): (r: Result<Snapshot, string>)
    ensures r.Failure? <==> exists i :: 0 <= i < |items| && Malformed(items[i])
    ensures r.Failure? ==> r.error == FormatError
    ensures r.Success? && DistinctKeys(data) ==> DistinctKeys(r.value)
    decreases |items|
  {
    if |items| == 0 then Success(data)
    else
      var init := items[..|items|-1];
      var x := items[|items|-1];
      assert forall i :: 0 <= i < |init| ==> init[i] == items[i];
      assert (exists i :: 0 <= i < |items| && Malformed(items[i])) <==>
        (exists i :: 0 <= i < |init| && Malformed(init[i])) || Malformed(x) by {
        if exists i :: 0 <= i < |items| && Malformed(items[i]) {
          var i :| 0 <= i < |items| && Malformed(items[i]);
          if i < |init| { assert Malformed(init[i]); }
        }
      }
      var prev := AddEntries(data, init);
      if prev.Failure? then prev else AddEntry(prev.value, x)
  }

  /** The last entry that carries key `k`, if any. */
  function LastWithKey(items: seq<Item>, k: string): (r: Option<Item>)
    ensures r.Some? ==> HasKey(r.value, k) && r.value in items
    ensures r.None? ==> forall i :: 0 <= i < |items| ==> !HasKey(items[i], k)
    decreases |items|
  {
    if |items| == 0 then None
    else if HasKey(items[|items|-1], k) then Some(items[|items|-1])
    else
      var init := items[..|items|-1];
      assert forall i :: 0 <= i < |init| ==> init[i] == items[i];
      LastWithKey(init, k)
  }

  /** After adding entries, a key holds the last entry carrying it (later duplicates
      overwrite earlier ones), and keys no entry carries are unchanged. */
  lemma {:induction false} AddEntriesGet(data: Snapshot, items: seq<Item>, k: string)
    ensures AddEntries(data, items).Success? ==> (Get(AddEntries(data, items).value, k)
      == if LastWithKey(items, k).Some? then Some(JobOf(LastWithKey(items, k).value)) else Get(data, k))
    decreases |items|
  {
    if |items| > 0 {
      AddEntriesGet(data, items[..|items|-1], k);
    }
  }

  /** The keys the entries bring that `data` does not have, in the order they are
      first seen. */
  function NewKeys(data: Snapshot, items: seq<Item>): (r: seq<string>)
    ensures forall k :: k in r ==> k !in Keys(data) && exists i :: 0 <= i < |items| && HasKey(items[i], k)
    ensures forall i, j :: 0 <= i < j < |r| ==> r[i] != r[j]
    decreases |items|
  {
    if |items| == 0 then []
    else
      var init := items[..|items|-1];
      var x := items[|items|-1];
      var prev := NewKeys(data, init);
      assert forall i :: 0 <= i < |init| ==> init[i] == items[i];
      if x.clusterId.IntId? && x.procId.IntId? && IdKey(x.clusterId.n, x.procId.n) !in Keys(data) + prev
      then prev + [IdKey(x.clusterId.n, x.procId.n)]
      else prev
  }

  /** Adding entries never moves a key: the old keys stay in order, and the new ones
      follow in the order the entries first bring them, as a `dict` keeps them. */
  lemma {:induction false} AddEntriesKeepsOrder(data: Snapshot, items: seq<Item>)
    ensures AddEntries(data, items).Success? ==>
      |AddEntries(data, items).value| >= |data| && Keys(AddEntries(data, items).value)[..|data|] == Keys(data)
    ensures AddEntries(data, items).Success? ==> Keys(AddEntries(data, items).value) == Keys(data) + NewKeys(data, items)
    decreases |items|
  {
    if |items| > 0 && AddEntries(data, items).Success? {
      var init := items[..|items|-1];
      var x := items[|items|-1];
      var prev := AddEntries(data, init).value;
      AddEntriesKeepsOrder(data, init);
      assert AddEntries(data, items) == AddEntry(prev, x);
      AddEntryKeys(prev, x);
      var before := NewKeys(data, init);
      if x.clusterId.IntId? && x.procId.IntId? && IdKey(x.clusterId.n, x.procId.n) !in Keys(prev) {
        var k := IdKey(x.clusterId.n, x.procId.n);
        assert NewKeys(data, items) == before + [k];
        ConcatAssoc(Keys(data), before, [k]);
      } else {
        assert NewKeys(data, items) == before;
      }
      assert (Keys(data) + NewKeys(data, items))[..|data|] == Keys(data);
    }
  }

  lemma ConcatAssoc<T>(a: seq<T>, b: seq<T>, c: seq<T>)
    ensures (a + b) + c == a + (b + c)
  {
  }

  /** One entry added: its key goes to the end unless it is already there. */
  lemma AddEntryKeys(d: Snapshot, x: Item)
    requires AddEntry(d, x).Success?
    ensures Keys(AddEntry(d, x).value) ==
      if x.clusterId.IntId? && x.procId.IntId? && IdKey(x.clusterId.n, x.procId.n) !in Keys(d)
      then Keys(d) + [IdKey(x.clusterId.n, x.procId.n)] else Keys(d)
  {
  }

  /** Every key of the result was already there or is carried by an entry. */
  lemma AddEntriesKeySources(data: Snapshot, items: seq<Item>, k: string)
    requires AddEntries(data, items).Success? && k in Keys(AddEntries(data, items).value)
    ensures k in Keys(data) || exists i :: 0 <= i < |items| && HasKey(items[i], k)
  {
    AddEntriesGet(data, items, k);
  }

  /** An entry missing either id leaves the snapshot as it was. */
  lemma IncompleteDropped(data: Snapshot, x: Item)
    requires x.clusterId.Absent? || x.procId.Absent?
    ensures AddEntries(data, [x]) == Success(data)
  {
    assert [x][..0] == [];
  }

  /** An entry with both ids present, one of them null, raises whatever came before. */
  lemma NullIdRaises(data: Snapshot, items: seq<Item>, attrs: Attrs, c: int)
    ensures AddEntries(data, items + [Item(IntId(c), NotInt, attrs)]) == Failure(FormatError)
  {
    var all := items + [Item(IntId(c), NotInt, attrs)];
    assert all[..|all| - 1] == items;
  }

  /** The top-level shapes a JSON snapshot file can have. An object comes from the
      JSON parser, which keeps one value per key (the last), so the caller supplies
      `entries` with distinct keys, in the file's order. */
  datatype JsonDoc = JList(items: seq<Item>) | JDict(entries: Snapshot) | JOther

  /** Reading a snapshot file: a list is keyed entry by entry, an object is taken as
      the snapshot itself, anything else is a TypeError. */
  function ReadSnapshot(doc: JsonDoc): (r: Result<Snapshot, string>)
    ensures r.Failure? <==> doc.JOther? || (doc.JList? && exists i :: 0 <= i < |doc.items| && Malformed(doc.items[i]))
    ensures doc.JDict? ==> r == Success(doc.entries)
  {
    match doc
    case JList(items) => AddEntries([], items)
    case JDict(entries) => Success(entries)
    case JOther => Failure("TypeError")
  }

  /** A list snapshot without a malformed entry holds, under each key, the last entry
      carrying it, and nothing under any other key. */
  lemma ReadListGet(items: seq<Item>, k: string)
    requires forall i :: 0 <= i < |items| ==> !Malformed(items[i])
    ensures ReadSnapshot(JList(items)).Success?
    ensures Get(ReadSnapshot(JList(items)).value, k) ==
      if LastWithKey(items, k).Some? then Some(JobOf(LastWithKey(items, k).value)) else None
  {
    AddEntriesGet([], items, k);
  }

  /** Keys of a list snapshot are distinct. */
  lemma ReadListDistinct(items: seq<Item>)
    ensures ReadSnapshot(JList(items)).Success? ==> DistinctKeys(ReadSnapshot(JList(items)).value)
  {
  }
}
