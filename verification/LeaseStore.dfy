/** The breakglass lease store (`LeaseStore` in `RuntimeSupport.swift`): a directory of signed lease
    and revocation files, read through a cache keyed by a snapshot of the directory. */
module LeaseStore {
  import opened Wrappers
  import opened Ordering
  import opened PolicyModels

  /** What reading a file gives. `genuine` is the outcome of the signature check. */
  datatype Body = SignedLease(lease: Lease, genuine: bool) | Revocation(revokedAt: string) | Garbage

  datatype File = File(name: string, body: Body, modified: int, size: nat)

  /** A directory listing; the order is whatever the file system gives. */
  type Directory = seq<File>

  datatype StoredRecord = StoredRecord(lease: Lease, revokedAt: Option<string>, active: bool)

  const SIGNED := ".signed.json"
  const REVOKED := ".revoked.json"

  ghost predicate DistinctNames(dir: Directory) {
    forall i, j :: 0 <= i < j < |dir| ==> dir[i].name != dir[j].name
  }

  predicate HasSuffix(name: string, suffix: string) {
    |suffix| <= |name| && name[|name| - |suffix|..] == suffix
  }

  lemma SuffixExactly(name: string, suffix: string)
    ensures HasSuffix(name, suffix) <==> exists stem :: name == stem + suffix
  {
    if HasSuffix(name, suffix) { assert name == name[..|name| - |suffix|] + suffix; }
  }

  predicate NameLess(a: File, b: File) {
    StringLess(a.name, b.name)
  }

  function Lookup(dir: Directory, name: string): Option<File> {
    if dir == [] then None else if dir[0].name == name then Some(dir[0]) else Lookup(dir[1..], name)
  }

  /** The `.signed.json` entries, in listing order. */
  function SignedFiles(dir: Directory): seq<File> {
    if dir == [] then [] else
    (if HasSuffix(dir[0].name, SIGNED) then [dir[0]] else []) + SignedFiles(dir[1..])
  }

  /** No revocation file, its content, or an unreadable one (a thrown error). */
  function RevocationOf(dir: Directory, leaseID: string): Result<Option<string>> {
    match Lookup(dir, leaseID + REVOKED)
    case None => Success(None)
    case Some(file) => if file.body.Revocation? then Success(Some(file.body.revokedAt)) else Failure(file.name)
  }

  function LoadRecord(host: Host, dir: Directory, entry: File, now: int): Result<StoredRecord> {
    if !entry.body.SignedLease? || !entry.body.genuine then Failure(entry.name) else
    var lease := entry.body.lease;
    var revokedAt :- RevocationOf(dir, lease.leaseID);
    Success(StoredRecord(lease, revokedAt, revokedAt.None? && IsActive(host, lease, now)))
  }

  function LoadEach(host: Host, dir: Directory, entries: seq<File>, now: int): Result<seq<StoredRecord>> {
    if entries == [] then Success([]) else
    var first :- LoadRecord(host, dir, entries[0], now);
    var rest :- LoadEach(host, dir, entries[1..], now);
    Success([first] + rest)
  }

  function LoadRecords(host: Host, dir: Directory, now: int): Result<seq<StoredRecord>> {
    LoadEach(host, dir, Sort(SignedFiles(dir), NameLess), now)
  }

  predicate Wanted(host: Host, r: StoredRecord, profile: Option<Profile>, now: int) {
    r.active && IsActive(host, r.lease, now) && (profile.None? || r.lease.profile == profile.value)
  }

  /** The leases `activeLeases` keeps of a list of records. */
  function ActiveOf(host: Host, records: seq<StoredRecord>, profile: Option<Profile>, now: int): seq<Lease> {
    if records == [] then [] else
    (if Wanted(host, records[0], profile, now) then [records[0].lease] else [])
    + ActiveOf(host, records[1..], profile, now)
  }

  datatype Stamp = Stamp(name: string, modified: int, size: nat)

  function Stamps(files: seq<File>): seq<Stamp> {
    seq(|files|, i requires 0 <= i < |files| => Stamp(files[i].name, files[i].modified, files[i].size))
  }

  /** Names, modification times and sizes in name order. */
  function Snapshot(dir: Directory): seq<Stamp> {
    Stamps(Sort(dir, NameLess))
  }

  // ---------------------------------------------------------------- the listing order does not matter

  lemma NameOrder(files: seq<File>)
    requires DistinctNames(files)
    ensures IsStrict(NameLess) && Comparable(files, NameLess)
  {
    StringStrict();
    forall x, y | NameLess(x, y) ensures !NameLess(y, x) { StringTotal(x.name, y.name); }
    forall x, y, z | NameLess(x, y) && NameLess(y, z) ensures NameLess(x, z) {
      StringTransitive(x.name, y.name, z.name);
    }
    forall i, j | 0 <= i < j < |files| ensures NameLess(files[i], files[j]) || NameLess(files[j], files[i]) {
      StringTotal(files[i].name, files[j].name);
    }
  }

  lemma {:induction false} SignedCount(dir: Directory, f: File)
    ensures multiset(SignedFiles(dir))[f] == if HasSuffix(f.name, SIGNED) then multiset(dir)[f] else 0
  {
    if dir != [] {
      var first := if HasSuffix(dir[0].name, SIGNED) then [dir[0]] else [];
      SignedCount(dir[1..], f);
      assert dir == [dir[0]] + dir[1..];
      assert multiset(SignedFiles(dir)) == multiset(first) + multiset(SignedFiles(dir[1..]));
    }
  }

  lemma {:induction false} SignedFilesDistinct(dir: Directory)
    requires DistinctNames(dir)
    ensures DistinctNames(SignedFiles(dir))
    ensures forall f :: f in SignedFiles(dir) ==> f in dir
  {
    if dir != [] {
      SignedFilesDistinct(dir[1..]);
      var rest := SignedFiles(dir[1..]);
      forall j | 0 <= j < |rest| ensures rest[j].name != dir[0].name {
        assert rest[j] in dir[1..];
      }
    }
  }

  lemma {:induction false} LookupMeans(dir: Directory, name: string, f: File)
    requires DistinctNames(dir)
    ensures Lookup(dir, name) == Some(f) <==> f in dir && f.name == name
  {
    if dir != [] {
      LookupMeans(dir[1..], name, f);
      assert dir == [dir[0]] + dir[1..];
    }
  }

  lemma SameLookup(a: Directory, b: Directory, name: string)
    requires DistinctNames(a) && DistinctNames(b) && multiset(a) == multiset(b)
    ensures Lookup(a, name) == Lookup(b, name)
  {
    SameElements(a, b);
    if Lookup(a, name).Some? {
      LookupMeans(a, name, Lookup(a, name).value);
      LookupMeans(b, name, Lookup(a, name).value);
    } else if Lookup(b, name).Some? {
      LookupMeans(a, name, Lookup(b, name).value);
      LookupMeans(b, name, Lookup(b, name).value);
    }
  }

  lemma {:induction false} SameLoads(host: Host, a: Directory, b: Directory, entries: seq<File>, now: int)
    requires DistinctNames(a) && DistinctNames(b) && multiset(a) == multiset(b)
    ensures LoadEach(host, a, entries, now) == LoadEach(host, b, entries, now)
  {
    if entries != [] {
      if entries[0].body.SignedLease? { SameLookup(a, b, entries[0].body.lease.leaseID + REVOKED); }
      SameLoads(host, a, b, entries[1..], now);
    }
  }

  /** Snapshots and loaded records are the same in whatever order a directory lists its files. */
  lemma ListingOrderForgotten(host: Host, a: Directory, b: Directory, now: int)
    requires DistinctNames(a) && DistinctNames(b) && multiset(a) == multiset(b)
    ensures Snapshot(a) == Snapshot(b)
    ensures LoadRecords(host, a, now) == LoadRecords(host, b, now)
  {
    NameOrder(a);
    NameOrder(b);
    SortCanonical(a, b, NameLess);
    forall f ensures multiset(SignedFiles(a))[f] == multiset(SignedFiles(b))[f] {
      SignedCount(a, f);
      SignedCount(b, f);
    }
    SignedFilesDistinct(a);
    SignedFilesDistinct(b);
    NameOrder(SignedFiles(a));
    NameOrder(SignedFiles(b));
    SortCanonical(SignedFiles(a), SignedFiles(b), NameLess);
    SameLoads(host, a, b, Sort(SignedFiles(a), NameLess), now);
  }

  /** A file of that name, time of modification and size. */
  ghost predicate HasStamp(files: seq<File>, stamp: Stamp) {
    exists f :: f in files && f.name == stamp.name && f.modified == stamp.modified && f.size == stamp.size
  }

  lemma StampsMean(files: seq<File>, stamp: Stamp)
    ensures stamp in Stamps(files) <==> HasStamp(files, stamp)
  {
    if stamp in Stamps(files) {
      var i :| 0 <= i < |files| && Stamps(files)[i] == stamp;
      assert files[i] in files;
    }
    if f :| f in files && f.name == stamp.name && f.modified == stamp.modified && f.size == stamp.size {
      var i :| 0 <= i < |files| && files[i] == f;
      assert Stamps(files)[i] == stamp;
    }
  }

  predicate StampLess(a: Stamp, b: Stamp) {
    StringLess(a.name, b.name)
  }

  lemma SnapshotAscends(dir: Directory)
    requires DistinctNames(dir)
    ensures Ascending(Snapshot(dir), StampLess) && IsAsymmetric(StampLess)
    ensures forall stamp :: stamp in Snapshot(dir) <==> HasStamp(dir, stamp)
  {
    NameOrder(dir);
    SortAscending(dir, NameLess);
    SortPermutes(dir, NameLess);
    var files := Sort(dir, NameLess);
    forall i, j | 0 <= i < j < |files| ensures StampLess(Snapshot(dir)[i], Snapshot(dir)[j]) {
      assert NameLess(files[i], files[j]);
    }
    forall x, y | StampLess(x, y) ensures !StampLess(y, x) { StringTotal(x.name, y.name); }
    forall stamp ensures stamp in Snapshot(dir) <==> HasStamp(dir, stamp) {
      StampsMean(files, stamp);
    }
  }

  /** What a snapshot identifies: two directories have the same one exactly when they have files of the
      same names, times of modification and sizes. */
  lemma SnapshotExactly(a: Directory, b: Directory)
    requires DistinctNames(a) && DistinctNames(b)
    ensures Snapshot(a) == Snapshot(b) <==> forall stamp :: HasStamp(a, stamp) <==> HasStamp(b, stamp)
  {
    SnapshotAscends(a);
    SnapshotAscends(b);
    if forall stamp :: HasStamp(a, stamp) <==> HasStamp(b, stamp) {
      AscendingByElements(Snapshot(a), Snapshot(b), StampLess);
    }
  }

  // ---------------------------------------------------------------- what is loaded

  /** A signed lease file whose signature is good. */
  predicate IsGenuine(f: File) {
    f.body.SignedLease? && f.body.genuine
  }

  predicate IsSigned(f: File) {
    HasSuffix(f.name, ".signed.json")
  }

  /** The revocation of a lease was recorded at `at`. */
  ghost predicate RevokedAt(dir: Directory, leaseID: string, at: string) {
    exists g :: g in dir && g.name == leaseID + ".revoked.json" && g.body == Revocation(at)
  }

  ghost predicate ReadableRevocation(dir: Directory, leaseID: string) {
    forall g :: g in dir && g.name == leaseID + ".revoked.json" ==> g.body.Revocation?
  }

  lemma RevocationMeans(dir: Directory, leaseID: string)
    requires DistinctNames(dir)
    ensures RevocationOf(dir, leaseID).Success? <==> ReadableRevocation(dir, leaseID)
    ensures RevocationOf(dir, leaseID).Success? ==>
              forall at :: RevocationOf(dir, leaseID).value == Some(at) <==> RevokedAt(dir, leaseID, at)
  {
    forall f ensures Lookup(dir, leaseID + REVOKED) == Some(f) <==> f in dir && f.name == leaseID + REVOKED {
      LookupMeans(dir, leaseID + REVOKED, f);
    }
  }

  /** A record is that of a signed file: its lease, when it was revoked if it was, and whether it is
      unrevoked and within its dates. */
  ghost predicate RecordOf(host: Host, dir: Directory, f: File, r: StoredRecord, now: int) {
    && f.body == SignedLease(r.lease, true)
    && (forall at :: r.revokedAt == Some(at) <==> RevokedAt(dir, r.lease.leaseID, at))
    && (r.active <==> r.revokedAt.None? && InDates(host, r.lease, now))
  }

  predicate InDates(host: Host, lease: Lease, now: int) {
    && host.date(lease.createdAt).Some? && host.date(lease.createdAt).value <= now
    && host.date(lease.expiresAt).Some? && now < host.date(lease.expiresAt).value
  }

  lemma {:induction false} LoadEachMeans(host: Host, dir: Directory, entries: seq<File>, now: int)
    requires DistinctNames(dir)
    ensures var loaded := LoadEach(host, dir, entries, now);
            && (loaded.Success? <==>
                  forall i :: 0 <= i < |entries| ==>
                    IsGenuine(entries[i]) && ReadableRevocation(dir, entries[i].body.lease.leaseID))
            && (loaded.Success? ==>
                  && |loaded.value| == |entries|
                  && forall i :: 0 <= i < |entries| ==> RecordOf(host, dir, entries[i], loaded.value[i], now))
  {
    if entries != [] {
      LoadEachMeans(host, dir, entries[1..], now);
      if entries[0].body.SignedLease? { RevocationMeans(dir, entries[0].body.lease.leaseID); }
      assert forall i :: 1 <= i < |entries| ==> entries[i] == entries[1..][i - 1];
    }
  }

  /** All signed files of a directory, in the order of their names. */
  ghost predicate SignedInOrder(dir: Directory, files: seq<File>) {
    && Ascending(files, NameLess)
    && (forall f :: f in files <==> f in dir && IsSigned(f))
  }

  lemma SortedSigned(dir: Directory)
    requires DistinctNames(dir)
    ensures SignedInOrder(dir, Sort(SignedFiles(dir), NameLess))
  {
    var files := Sort(SignedFiles(dir), NameLess);
    SignedFilesDistinct(dir);
    NameOrder(SignedFiles(dir));
    SortAscending(SignedFiles(dir), NameLess);
    SortPermutes(SignedFiles(dir), NameLess);
    forall f ensures f in files <==> f in dir && IsSigned(f) {
      SignedCount(dir, f);
      assert f in files <==> multiset(SignedFiles(dir))[f] > 0;
      assert f in dir <==> multiset(dir)[f] > 0;
    }
  }

  /** One record for each of these files, in their order. */
  ghost predicate RecordsOf(host: Host, dir: Directory, files: seq<File>, records: seq<StoredRecord>, now: int) {
    |files| == |records| && forall i :: 0 <= i < |files| ==> RecordOf(host, dir, files[i], records[i], now)
  }

  /** What loading gives: it succeeds exactly when every signed file is genuine and the revocation of its
      lease, if there is one, is readable. The records are then those of the signed files, one each, in
      the order of the file names. */
  lemma LoadsExactly(host: Host, dir: Directory, now: int) returns (files: seq<File>)
    requires DistinctNames(dir)
    ensures SignedInOrder(dir, files)
    ensures LoadRecords(host, dir, now).Success? <==>
              forall f :: f in dir && IsSigned(f) ==> IsGenuine(f) && ReadableRevocation(dir, f.body.lease.leaseID)
    ensures LoadRecords(host, dir, now).Success? ==>
              RecordsOf(host, dir, files, LoadRecords(host, dir, now).value, now)
  {
    files := Sort(SignedFiles(dir), NameLess);
    SortedSigned(dir);
    LoadEachMeans(host, dir, files, now);
    forall f | f in dir && IsSigned(f) ensures exists i :: 0 <= i < |files| && files[i] == f { assert f in files; }
    forall i | 0 <= i < |files| ensures files[i] in dir && IsSigned(files[i]) { assert files[i] in files; }
  }

  lemma {:induction false} ActiveOfMeans(host: Host, records: seq<StoredRecord>, profile: Option<Profile>, now: int,
                                         lease: Lease)
    ensures lease in ActiveOf(host, records, profile, now) <==>
              exists i :: 0 <= i < |records| && records[i].lease == lease && Wanted(host, records[i], profile, now)
  {
    if records != [] {
      ActiveOfMeans(host, records[1..], profile, now, lease);
      assert forall i :: 1 <= i < |records| ==> records[i] == records[1..][i - 1];
    }
  }

  /** A lease that a listing should give: unrevoked, within its dates at the load and now, and of the
      profile asked for. */
  ghost predicate Listable(host: Host, dir: Directory, lease: Lease, at: int, profile: Option<Profile>, now: int) {
    && (forall when :: !RevokedAt(dir, lease.leaseID, when))
    && InDates(host, lease, at) && InDates(host, lease, now)
    && (profile.None? || lease.profile == profile.value)
  }

  lemma WantedMeans(host: Host, dir: Directory, f: File, r: StoredRecord, at: int, profile: Option<Profile>, now: int)
    requires RecordOf(host, dir, f, r, at)
    ensures Wanted(host, r, profile, now) <==> Listable(host, dir, r.lease, at, profile, now)
  {
    if r.revokedAt.Some? {
      assert RevokedAt(dir, r.lease.leaseID, r.revokedAt.value);
    }
  }

  /** Which leases are listed from a load at `at`: exactly those of genuine signed files that a listing
      should give. */
  lemma ListedExactly(host: Host, dir: Directory, at: int, profile: Option<Profile>, now: int, lease: Lease)
    requires DistinctNames(dir) && LoadRecords(host, dir, at).Success?
    ensures lease in ActiveOf(host, LoadRecords(host, dir, at).value, profile, now) <==>
              && (exists f :: f in dir && IsSigned(f) && f.body == SignedLease(lease, true))
              && Listable(host, dir, lease, at, profile, now)
  {
    var records := LoadRecords(host, dir, at).value;
    var files := LoadsExactly(host, dir, at);
    ActiveOfMeans(host, records, profile, now, lease);
    forall i | 0 <= i < |records| && records[i].lease == lease
      ensures Wanted(host, records[i], profile, now) <==> Listable(host, dir, lease, at, profile, now)
      ensures files[i] in dir && IsSigned(files[i]) && files[i].body == SignedLease(lease, true)
    {
      assert RecordOf(host, dir, files[i], records[i], at) && files[i] in files;
      WantedMeans(host, dir, files[i], records[i], at, profile, now);
    }
    if f :| f in dir && IsSigned(f) && f.body == SignedLease(lease, true) {
      assert f in files;
      var i :| 0 <= i < |files| && files[i] == f;
      assert RecordOf(host, dir, files[i], records[i], at);
    }
  }

  // ---------------------------------------------------------------- the store

  class LeaseStore {
    const host: Host
    var cachedSnapshot: Option<seq<Stamp>>
    var cachedRecords: seq<StoredRecord>

    constructor (host: Host)
      ensures this.host == host && cachedSnapshot == None && cachedRecords == []
    {
      this.host := host;
      cachedSnapshot, cachedRecords := None, [];
    }

    method InvalidateCache()
      modifies this
      ensures cachedSnapshot == None && cachedRecords == []
    {
      cachedSnapshot, cachedRecords := None, [];
    }

    /** The snapshot and the records are read one after the other, so other writers may change the
        directory in between. */
    method ReloadIfNeeded(atSnapshot: Directory, atLoad: Directory, now: int) returns (r: Result<()>)
      modifies this
      ensures var hit := old(cachedSnapshot) == Some(Snapshot(atSnapshot));
              var records := LoadRecords(host, atLoad, now);
              && r == (if hit || records.Success? then Success(()) else Failure(records.error))
              && cachedSnapshot == (if r.Success? then Some(Snapshot(atSnapshot)) else old(cachedSnapshot))
              && cachedRecords == (if hit || r.Failure? then old(cachedRecords) else records.value)
    {
      var snapshot := Snapshot(atSnapshot);
      if cachedSnapshot == Some(snapshot) {
        return Success(());
      }
      var records :- LoadRecords(host, atLoad, now);
      cachedSnapshot, cachedRecords := Some(snapshot), records;
      r := Success(());
    }

    method ActiveLeases(profile: Option<Profile>, atSnapshot: Directory, atLoad: Directory, now: int)
      returns (r: Result<seq<Lease>>)
      modifies this
      ensures r.Success? ==>
        cachedSnapshot == Some(Snapshot(atSnapshot)) && r.value == ActiveOf(host, cachedRecords, profile, now)
      ensures old(cachedSnapshot) == Some(Snapshot(atSnapshot)) ==> r.Success? && cachedRecords == old(cachedRecords)
      ensures old(cachedSnapshot) != Some(Snapshot(atSnapshot)) ==>
        r == match LoadRecords(host, atLoad, now)
             case Success(records) => Success(ActiveOf(host, records, profile, now))
             case Failure(e) => Failure(e)
    {
      var _ :- ReloadIfNeeded(atSnapshot, atLoad, now);
      r := Success(ActiveOf(host, cachedRecords, profile, now));
    }
  }

  // ---------------------------------------------------------------- cached against fresh

  /** Whether loading succeeds, which leases it finds and which are revoked do not depend on time. */
  lemma {:induction false} LoadTimes(host: Host, dir: Directory, entries: seq<File>, t: int, now: int)
    ensures var a, b := LoadEach(host, dir, entries, t), LoadEach(host, dir, entries, now);
            && a.Success? == b.Success?
            && (a.Success? ==> |a.value| == |b.value| == |entries|)
            && (a.Success? ==> forall i :: 0 <= i < |a.value| ==>
                  && a.value[i].lease == b.value[i].lease && a.value[i].revokedAt == b.value[i].revokedAt
                  && a.value[i].active == (a.value[i].revokedAt.None? && IsActive(host, a.value[i].lease, t)))
  {
    if entries != [] { LoadTimes(host, dir, entries[1..], t, now); }
  }

  ghost predicate IsSubsequence<T>(a: seq<T>, b: seq<T>) {
    if a == [] then true
    else b != [] && ((a[0] == b[0] && IsSubsequence(a[1..], b[1..])) || IsSubsequence(a, b[1..]))
  }

  /** Records of the same leases loaded at `t`, read at `now`, against records loaded at `now`. */
  lemma {:induction false} ActiveCompared(host: Host, cached: seq<StoredRecord>, current: seq<StoredRecord>,
                                          profile: Option<Profile>, t: int, now: int)
    requires |cached| == |current|
    requires forall i :: 0 <= i < |cached| ==>
      && cached[i].lease == current[i].lease && cached[i].revokedAt == current[i].revokedAt
      && cached[i].active == (cached[i].revokedAt.None? && IsActive(host, cached[i].lease, t))
      && current[i].active == (current[i].revokedAt.None? && IsActive(host, current[i].lease, now))
    ensures var a, b := ActiveOf(host, cached, profile, now), ActiveOf(host, current, profile, now);
            && IsSubsequence(a, b) && |a| <= |b|
            && (a == b <==> forall r :: r in current && Wanted(host, r, profile, now) ==> IsActive(host, r.lease, t))
            && (a != b ==> |a| < |b|)
  {
    if cached != [] {
      ActiveCompared(host, cached[1..], current[1..], profile, t, now);
      assert current == [current[0]] + current[1..];
      var a, b := ActiveOf(host, cached[1..], profile, now), ActiveOf(host, current[1..], profile, now);
      assert [] + a == a && [] + b == b;
      if Wanted(host, cached[0], profile, now) {
        assert ([cached[0].lease] + a)[1..] == a && ([current[0].lease] + b)[1..] == b;
      } else if Wanted(host, current[0], profile, now) {
        assert ([current[0].lease] + b)[1..] == b;
      }
    }
  }

  /** `activeLeases` from records cached at time `t` of the same directory never lists more than a
      fresh read at `now`, and lists the same exactly when every lease it should list was already
      active at `t`. */
  lemma CachedAgainstFresh(host: Host, dir: Directory, profile: Option<Profile>, t: int, now: int)
    requires LoadRecords(host, dir, t).Success?
    ensures LoadRecords(host, dir, now).Success?
    ensures var records := LoadRecords(host, dir, now).value;
            var cached := ActiveOf(host, LoadRecords(host, dir, t).value, profile, now);
            var current := ActiveOf(host, records, profile, now);
            && IsSubsequence(cached, current)
            && (cached == current
                <==> forall r :: r in records && Wanted(host, r, profile, now) ==> IsActive(host, r.lease, t))
  {
    var entries := Sort(SignedFiles(dir), NameLess);
    LoadTimes(host, dir, entries, t, now);
    LoadTimes(host, dir, entries, now, t);
    ActiveCompared(host, LoadRecords(host, dir, t).value, LoadRecords(host, dir, now).value, profile, t, now);
  }

  /** When time has not gone backwards, the leases a cached answer misses are exactly those created
      after the load: a postdated lease stays out until the directory changes. */
  lemma CacheMissesExactlyPostdated(host: Host, dir: Directory, profile: Option<Profile>, t: int, now: int)
    requires t <= now && LoadRecords(host, dir, t).Success?
    ensures LoadRecords(host, dir, now).Success?
    ensures var records := LoadRecords(host, dir, now).value;
            ActiveOf(host, LoadRecords(host, dir, t).value, profile, now) == ActiveOf(host, records, profile, now)
            <==> forall r :: r in records && Wanted(host, r, profile, now) ==> host.date(r.lease.createdAt).value <= t
  {
    CachedAgainstFresh(host, dir, profile, t, now);
  }

  // ---------------------------------------------------------------- one reader among writers

  /** The reader's place inside `list`: after the snapshot of version `v`, or after loading version
      `from` at time `at`. */
  datatype Phase = Idle | Snapped(v: nat) | Read(v: nat, from: nat, at: int, records: seq<StoredRecord>)

  /** Every version of the directory so far, the clock, the store's cache with where it came from
      (snapshot of version `taken`, records of version `from` loaded at `at`), and the reader. */
  datatype World = World(dirs: seq<Directory>, clock: int, cached: Option<seq<Stamp>>, records: seq<StoredRecord>,
                         taken: nat, from: nat, at: int, phase: Phase)

  datatype Step = Write(dir: Directory) | Tick(elapsed: nat) | Invalidate | TakeSnapshot | Load | Store

  function Start(dir: Directory): World {
    World([dir], 0, None, [], 0, 0, 0, Idle)
  }

  function Latest(w: World): nat
    requires w.dirs != []
  {
    |w.dirs| - 1
  }

  predicate Hit(w: World) {
    w.phase.Snapped? && w.phase.v < |w.dirs| && w.cached == Some(Snapshot(w.dirs[w.phase.v]))
  }

  function Apply(host: Host, w: World, step: Step): World
    requires w.dirs != [] && (!w.phase.Idle? ==> w.phase.v < |w.dirs|)
  {
    match step
    case Write(dir) => w.(dirs := w.dirs + [dir])
    case Tick(elapsed) => w.(clock := w.clock + elapsed)
    case Invalidate => if w.phase.Idle? then w.(cached := None, records := []) else w
    case TakeSnapshot => if w.phase.Idle? then w.(phase := Snapped(Latest(w))) else w
    case Load =>
      if !w.phase.Snapped? then w
      else if Hit(w) then w.(phase := Idle)
      else (match LoadRecords(host, w.dirs[Latest(w)], w.clock)
        case Success(records) => w.(phase := Read(w.phase.v, Latest(w), w.clock, records))
        case Failure(_) => w.(phase := Idle))
    case Store =>
      if !w.phase.Read? then w else
      w.(cached := Some(Snapshot(w.dirs[w.phase.v])), records := w.phase.records,
         taken := w.phase.v, from := w.phase.from, at := w.phase.at, phase := Idle)
  }

  ghost predicate Inv(host: Host, w: World) {
    && w.dirs != []
    && (w.cached.Some? ==>
          && w.taken <= w.from < |w.dirs| && w.at <= w.clock
          && w.cached.value == Snapshot(w.dirs[w.taken])
          && LoadRecords(host, w.dirs[w.from], w.at) == Success(w.records))
    && (w.phase.Snapped? ==> w.phase.v < |w.dirs| && (w.cached.Some? ==> w.from <= w.phase.v))
    && (w.phase.Read? ==>
          && w.phase.v <= w.phase.from < |w.dirs| && w.phase.at <= w.clock
          && LoadRecords(host, w.dirs[w.phase.from], w.phase.at) == Success(w.phase.records))
  }

  lemma StepKeeps(host: Host, w: World, step: Step)
    requires Inv(host, w)
    ensures Inv(host, Apply(host, w, step))
  {
    if step.Write? {
      assert forall i :: 0 <= i < |w.dirs| ==> (w.dirs + [step.dir])[i] == w.dirs[i];
    }
  }

  function RunFrom(host: Host, dir: Directory, steps: seq<Step>): (w: World)
    ensures Inv(host, w)
  {
    if steps == [] then Start(dir) else
    var before := RunFrom(host, dir, steps[..|steps| - 1]);
    StepKeeps(host, before, steps[|steps| - 1]);
    Apply(host, before, steps[|steps| - 1])
  }

  /** Every write leaves a snapshot never seen before. */
  ghost predicate FreshSnapshots(dirs: seq<Directory>) {
    forall i, j :: 0 <= i < j < |dirs| ==> Snapshot(dirs[i]) != Snapshot(dirs[j])
  }

  /** What a listing in progress answers with: from the cache, the records of the very version its
      snapshot was taken of; by loading, those of a version at least as new. A cache whose records
      are newer than its snapshot is never used. */
  ghost predicate AnswersCurrent(host: Host, w: World) {
    && (Hit(w) ==> w.at <= w.clock && LoadRecords(host, w.dirs[w.phase.v], w.at) == Success(w.records))
    && (w.phase.Read? ==>
          && w.phase.v <= w.phase.from < |w.dirs| && w.phase.at <= w.clock
          && LoadRecords(host, w.dirs[w.phase.from], w.phase.at) == Success(w.phase.records))
    && (w.cached.Some? && w.taken < w.from ==> !Hit(w))
  }

  lemma InvAnswersCurrent(host: Host, w: World)
    requires Inv(host, w) && FreshSnapshots(w.dirs)
    ensures AnswersCurrent(host, w)
  {
    if Hit(w) { SameVersion(w.dirs, w.taken, w.phase.v); }
  }

  /** In every run of one reader among other writers, if each write leaves a fresh snapshot, listings
      answer with a current version: a write that lands between snapshot and load makes the next
      listing load again. */
  lemma ListingIsCurrent(host: Host, dir: Directory, steps: seq<Step>)
    requires FreshSnapshots(RunFrom(host, dir, steps).dirs)
    ensures AnswersCurrent(host, RunFrom(host, dir, steps))
  {
    InvAnswersCurrent(host, RunFrom(host, dir, steps));
  }

  lemma SameVersion(dirs: seq<Directory>, i: nat, j: nat)
    requires FreshSnapshots(dirs) && i < |dirs| && j < |dirs| && Snapshot(dirs[i]) == Snapshot(dirs[j])
    ensures i == j
  {
  }

  /** So in every such run a cached listing is a part of what a fresh read of that version would list
      now, and all of it exactly when no lease it should list was created after the cached load. */
  lemma CachedListing(host: Host, dir: Directory, steps: seq<Step>, profile: Option<Profile>)
    requires FreshSnapshots(RunFrom(host, dir, steps).dirs) && Hit(RunFrom(host, dir, steps))
    ensures var w := RunFrom(host, dir, steps);
            var read := LoadRecords(host, w.dirs[w.phase.v], w.clock);
            && read.Success?
            && IsSubsequence(ActiveOf(host, w.records, profile, w.clock), ActiveOf(host, read.value, profile, w.clock))
            && (ActiveOf(host, w.records, profile, w.clock) == ActiveOf(host, read.value, profile, w.clock)
                <==> forall r :: r in read.value && Wanted(host, r, profile, w.clock)
                       ==> host.date(r.lease.createdAt).value <= w.at)
  {
    var w := RunFrom(host, dir, steps);
    ListingIsCurrent(host, dir, steps);
    CachedAgainstFresh(host, w.dirs[w.phase.v], profile, w.at, w.clock);
    CacheMissesExactlyPostdated(host, w.dirs[w.phase.v], profile, w.at, w.clock);
  }

  // ---------------------------------------------------------------- revocation

  /** Writing a file: an existing one of that name is replaced. */
  function WithFile(dir: Directory, file: File): Directory {
    if dir == [] then [file]
    else if dir[0].name == file.name then [file] + dir[1..]
    else [dir[0]] + WithFile(dir[1..], file)
  }

  function Revoke(r: StoredRecord, leaseID: string, revokedAt: string): StoredRecord {
    if r.lease.leaseID == leaseID then r.(revokedAt := Some(revokedAt), active := false) else r
  }

  lemma {:induction false} WithFileLookup(dir: Directory, file: File, name: string)
    ensures Lookup(WithFile(dir, file), name) == if name == file.name then Some(file) else Lookup(dir, name)
  {
    if dir != [] { WithFileLookup(dir[1..], file, name); }
  }

  lemma {:induction false} WithFileSigned(dir: Directory, file: File)
    requires !HasSuffix(file.name, SIGNED)
    ensures SignedFiles(WithFile(dir, file)) == SignedFiles(dir)
  {
    if dir == [] {
      assert [file][1..] == [];
    } else if dir[0].name != file.name {
      WithFileSigned(dir[1..], file);
    }
  }

  lemma RevokedNotSigned(leaseID: string)
    ensures !HasSuffix(leaseID + REVOKED, SIGNED)
  {
    var name := leaseID + REVOKED;
    assert name[|name| - |SIGNED|..][0] == 'r' && SIGNED[0] == '.';
  }

  lemma {:induction false} LoadEachRevoked(host: Host, dir: Directory, entries: seq<File>, file: File,
                                           leaseID: string, now: int)
    requires file.name == leaseID + REVOKED && file.body.Revocation?
    requires LoadEach(host, dir, entries, now).Success?
    ensures var before, after := LoadEach(host, dir, entries, now), LoadEach(host, WithFile(dir, file), entries, now);
            && after.Success? && |after.value| == |before.value|
            && forall i :: 0 <= i < |before.value| ==>
                 after.value[i] == Revoke(before.value[i], leaseID, file.body.revokedAt)
  {
    if entries != [] {
      LoadEachRevoked(host, dir, entries[1..], file, leaseID, now);
      var id := entries[0].body.lease.leaseID;
      WithFileLookup(dir, file, id + REVOKED);
      if id != leaseID { SuffixInjective(id, leaseID, REVOKED); }
    }
  }

  lemma SuffixInjective(a: string, b: string, suffix: string)
    requires a != b
    ensures a + suffix != b + suffix
  {
    assert (a + suffix)[..|a|] == a && (b + suffix)[..|b|] == b;
    assert |a + suffix| == |a| + |suffix| && |b + suffix| == |b| + |suffix|;
  }

  /** Revoking a lease id makes exactly the leases of that id inactive, now and at any later time,
      and changes nothing else. */
  lemma RevokeExactly(host: Host, dir: Directory, file: File, leaseID: string, now: int)
    requires file.name == leaseID + REVOKED && file.body.Revocation?
    requires LoadRecords(host, dir, now).Success?
    ensures var before, after := LoadRecords(host, dir, now), LoadRecords(host, WithFile(dir, file), now);
            && after.Success? && |after.value| == |before.value|
            && forall i :: 0 <= i < |before.value| ==>
                 after.value[i] == Revoke(before.value[i], leaseID, file.body.revokedAt)
  {
    RevokedNotSigned(leaseID);
    WithFileSigned(dir, file);
    LoadEachRevoked(host, dir, Sort(SignedFiles(dir), NameLess), file, leaseID, now);
  }
}
