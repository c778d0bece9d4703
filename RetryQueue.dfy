// The queue of search-index requests to retry
// (de.mpg.imeji.logic.db.indexretry.queue.RetryQueue): at most one request
// per object URI, delete requests taking precedence over index requests,
// and a full queue flushed to a backup file named after the current time.
// The backup directory is a map from file name to the queue saved in it;
// the clock and the failures of file operations are parameters.
module RetryQueue {
  import opened Wrappers
  import opened JavaStrings

  type Uri = string

  /** `RetryIndexRequest`, `RetryDeleteFromIndexRequest`, or a request of neither kind. */
  datatype Kind = Index | Delete | Other

  datatype Request = Request(uri: Uri, kind: Kind)

  type Queue = map<Uri, Request>

  /** `2^10`: in Java `^` is exclusive or, so the capacity is 8, not 1024. */
  const MaxSizeOfRetryQueue: int := ((2 as bv32) ^ (10 as bv32)) as int

  const FilePrefix: string := "ReIndex_"
  const FileSuffix: string := ".bin"

  /** The queue and the backup directory. */
  datatype Store = Store(queue: Queue, dir: map<string, Queue>)

  /** Every request is stored under its own URI. */
  predicate Keyed(q: Queue) {
    forall u :: u in q ==> q[u].uri == u
  }

  predicate ValidStore(s: Store) {
    Keyed(s.queue) && |s.queue| <= MaxSizeOfRetryQueue &&
    forall f :: f in s.dir ==> Keyed(s.dir[f])
  }

  /** `getRetryQueueFileName` at time `now` (milliseconds). */
  function FileName(now: nat): string {
    FilePrefix + NatToString(now) + FileSuffix
  }

  // ---------------------------------------------------------------------
  // Adding requests

  /**
   * `putIntoQueue`: with room the request is stored; otherwise the queue is
   * saved to a new file and emptied first. When saving fails the request is
   * dropped and nothing changes.
   */
  function IntoQueue(s: Store, r: Request, now: nat, saveFails: bool): Store {
    if |s.queue| + 1 > MaxSizeOfRetryQueue then
      if saveFails then s
      else Store(map[r.uri := r], s.dir[FileName(now) := s.queue])
    else s.(queue := s.queue[r.uri := r])
  }

  /**
   * `putRetryIndexRequest`: a request for a new URI is stored; for a URI
   * already queued only a delete request is stored, replacing the old one.
   */
  function PutRequest(s: Store, r: Request, now: nat, saveFails: bool): Store {
    if r.uri !in s.queue then IntoQueue(s, r, now, saveFails)
    else if r.kind == Index && s.queue[r.uri].kind == Delete then s
    else if r.kind == Delete then IntoQueue(s, r, now, saveFails)
    else s
  }

  /** Whether putting `r` into `s` needs a save that fails. */
  predicate SaveFailsFor(s: Store, saveFails: bool) {
    |s.queue| + 1 > MaxSizeOfRetryQueue && saveFails
  }

  /** `2^10` is 8 in Java. */
  lemma Capacity()
    ensures MaxSizeOfRetryQueue == 8
  {
  }

  /** Storing a request keeps the store keyed and within the capacity. */
  lemma IntoQueueKeepsValid(s: Store, r: Request, now: nat, saveFails: bool)
    requires ValidStore(s)
    ensures ValidStore(IntoQueue(s, r, now, saveFails))
  {
    Capacity();
    if |s.queue| + 1 <= MaxSizeOfRetryQueue {
      var q := s.queue[r.uri := r];
      assert q.Keys == s.queue.Keys + {r.uri};
      assert |q| <= |s.queue| + 1;
    } else if !saveFails {
      var d := s.dir[FileName(now) := s.queue];
      forall f | f in d
        ensures Keyed(d[f])
      {
        if f != FileName(now) {
          assert d[f] == s.dir[f];
        }
      }
    }
  }

  /** The capacity is 8, and adding a request keeps the store keyed and within it. */
  lemma PutKeepsValid(s: Store, r: Request, now: nat, saveFails: bool)
    requires ValidStore(s)
    ensures MaxSizeOfRetryQueue == 8
    ensures ValidStore(PutRequest(s, r, now, saveFails))
  {
    Capacity();
    if r.uri !in s.queue || r.kind == Delete {
      IntoQueueKeepsValid(s, r, now, saveFails);
    }
  }

  /** A request for a URI not queued yet is stored, unless a needed save fails. */
  lemma NewUriStored(s: Store, r: Request, now: nat, saveFails: bool)
    requires r.uri !in s.queue
    ensures var t := PutRequest(s, r, now, saveFails);
      !SaveFailsFor(s, saveFails) <==> (r.uri in t.queue && t.queue[r.uri] == r)
  {
  }

  /** A delete request replaces whatever is stored for its URI, unless a needed save fails. */
  lemma DeleteReplaces(s: Store, r: Request, now: nat, saveFails: bool)
    requires r.kind == Delete
    ensures var t := PutRequest(s, r, now, saveFails);
      !SaveFailsFor(s, saveFails) ==> r.uri in t.queue && t.queue[r.uri] == r
    ensures SaveFailsFor(s, saveFails) ==> PutRequest(s, r, now, saveFails) == s
  {
  }

  /** A request that is not a delete never overwrites a stored request. */
  lemma IndexNeverOverwrites(s: Store, r: Request, now: nat, saveFails: bool)
    requires r.uri in s.queue && r.kind != Delete
    ensures PutRequest(s, r, now, saveFails) == s
  {
  }

  /**
   * A full queue is saved under the current file name and emptied before
   * the request goes in. Every other backup file stays as it was; a backup
   * already saved under the same name is overwritten, so only when no file
   * of that name exists is no earlier request lost.
   */
  lemma FullQueueSaved(s: Store, r: Request, now: nat, saveFails: bool)
    requires ValidStore(s) && |s.queue| == MaxSizeOfRetryQueue && !saveFails
    requires r.uri !in s.queue || r.kind == Delete
    ensures var t := PutRequest(s, r, now, saveFails);
      t.queue == map[r.uri := r] &&
      FileName(now) in t.dir && t.dir[FileName(now)] == s.queue &&
      (forall u :: u in s.queue ==> u in t.dir[FileName(now)])
    ensures var t := PutRequest(s, r, now, saveFails);
      forall f :: f in s.dir && f != FileName(now) ==> f in t.dir && t.dir[f] == s.dir[f]
    ensures var t := PutRequest(s, r, now, saveFails);
      FileName(now) !in s.dir ==> t.dir.Keys == s.dir.Keys + {FileName(now)}
  {
  }

  /** `addRetryIndexRequests`: the requests put one by one, each with the time of its put. */
  function PutAll(s: Store, rs: seq<Request>, nows: seq<nat>, saveFails: seq<bool>): Store
    requires |nows| == |rs| && |saveFails| == |rs|
    decreases |rs|
  {
    if |rs| == 0 then s
    else PutAll(PutRequest(s, rs[0], nows[0], saveFails[0]), rs[1..], nows[1..], saveFails[1..])
  }

  lemma {:induction false} PutAllKeepsValid(s: Store, rs: seq<Request>, nows: seq<nat>, saveFails: seq<bool>)
    requires |nows| == |rs| && |saveFails| == |rs|
    requires ValidStore(s)
    ensures ValidStore(PutAll(s, rs, nows, saveFails))
    decreases |rs|
  {
    if |rs| > 0 {
      PutKeepsValid(s, rs[0], nows[0], saveFails[0]);
      PutAllKeepsValid(PutRequest(s, rs[0], nows[0], saveFails[0]), rs[1..], nows[1..], saveFails[1..]);
    }
  }

  lemma {:induction false} PutAllStep(s: Store, rs: seq<Request>, nows: seq<nat>, saveFails: seq<bool>, i: nat)
    requires |nows| == |rs| && |saveFails| == |rs| && i < |rs|
    ensures PutAll(s, rs[..i + 1], nows[..i + 1], saveFails[..i + 1]) ==
      PutRequest(PutAll(s, rs[..i], nows[..i], saveFails[..i]), rs[i], nows[i], saveFails[i])
    decreases i
  {
    if i > 0 {
      var t := PutRequest(s, rs[0], nows[0], saveFails[0]);
      assert rs[..i + 1][1..] == rs[1..][..i];
      assert nows[..i + 1][1..] == nows[1..][..i];
      assert saveFails[..i + 1][1..] == saveFails[1..][..i];
      assert rs[..i][1..] == rs[1..][..i - 1];
      assert nows[..i][1..] == nows[1..][..i - 1];
      assert saveFails[..i][1..] == saveFails[1..][..i - 1];
      PutAllStep(t, rs[1..], nows[1..], saveFails[1..], i - 1);
    }
  }

  // ---------------------------------------------------------------------
  // Backup file names

  /** `Pattern.matches("ReIndex_[0-9]+[\\w\\W]+", name)`: the prefix, a digit, and at least one more character. */
  predicate IsBackupName(name: string) {
    |name| >= |FilePrefix| + 2 && name[..|FilePrefix|] == FilePrefix && IsDigit(name[|FilePrefix|])
  }

  datatype FindError = StringIndexOutOfBounds | NumberFormat

  /**
   * The time part of a backup name: the characters between the prefix and
   * the last four. A name shorter than 12 makes `substring` throw; a part
   * that is not a number makes `parseLong` throw.
   */
  function TimePart(name: string): (r: Result<int, FindError>)
    requires IsBackupName(name)
    ensures r.Success? ==> 0 <= r.value <= LongMax
    ensures |name| < |FilePrefix| + 4 ==> r == Failure(StringIndexOutOfBounds)
  {
    if |name| - 4 < |FilePrefix| then Failure(StringIndexOutOfBounds)
    else
      var part := name[|FilePrefix|..|name| - 4];
      assert |part| > 0 ==> part[0] == name[|FilePrefix|];
      match ParseLong(part)
      case None => Failure(NumberFormat)
      case Some(v) => Success(v)
  }

  /** A file name written at time `now` is recognised, and its time part reads back as `now`. */
  lemma FileNameRoundTrip(now: nat)
    requires now <= LongMax
    ensures IsBackupName(FileName(now))
    ensures TimePart(FileName(now)) == Success(now)
  {
    var n := FileName(now);
    var digits := NatToString(now);
    assert n[..|FilePrefix|] == FilePrefix;
    assert n[|FilePrefix|] == digits[0];
    assert n[|FilePrefix|..|n| - 4] == digits;
    ParseNatToString(now, LongMin, LongMax);
  }

  /** The file chosen so far and its time (`Long.MIN_VALUE` before any). */
  datatype Choice = Choice(file: Option<string>, time: int)

  /** `findLatestRetryQueueFile` after the first `n` names of the listing. */
  function LatestUpTo(names: seq<string>, n: nat): Result<Choice, FindError>
    requires n <= |names|
  {
    if n == 0 then Success(Choice(None, LongMin))
    else
      match LatestUpTo(names, n - 1)
      case Failure(e) => Failure(e)
      case Success(c) =>
        if !IsBackupName(names[n - 1]) then Success(c)
        else
          match TimePart(names[n - 1])
          case Failure(e) => Failure(e)
          case Success(t) => if t > c.time then Success(Choice(Some(names[n - 1]), t)) else Success(c)
  }

  /**
   * When the listing is read without error, the file chosen is a backup
   * whose time is the largest of all backups listed, and no file is chosen
   * only when no backup is listed.
   */
  lemma {:induction false} LatestIsMaximal(names: seq<string>, n: nat)
    requires n <= |names|
    ensures var r := LatestUpTo(names, n);
      r.Success? ==>
        (r.value.file.None? <==> forall j :: 0 <= j < n ==> !IsBackupName(names[j])) &&
        (r.value.file.None? ==> r.value.time == LongMin) &&
        (r.value.file.Some? ==>
           exists i :: 0 <= i < n && names[i] == r.value.file.value && IsBackupName(names[i]) && TimePart(names[i]) == Success(r.value.time)) &&
        (forall j :: 0 <= j < n && IsBackupName(names[j]) ==>
           TimePart(names[j]).Success? && TimePart(names[j]).value <= r.value.time)
  {
    if n > 0 {
      LatestIsMaximal(names, n - 1);
    }
  }

  // ---------------------------------------------------------------------
  // The queue object

  class RetryQueue {
    var queue: Queue
    var dir: map<string, Queue>

    ghost predicate Valid()
      reads this
    {
      ValidStore(Store(queue, dir))
    }

    /** The singleton's first creation: an empty queue over the backup directory found. */
    constructor(dir: map<string, Queue>)
      requires forall f :: f in dir ==> Keyed(dir[f])
      ensures queue == map[] && this.dir == dir && Valid()
    {
      queue := map[];
      this.dir := dir;
    }

    /** `saveQueueToFile`: a non-empty queue is written to a new file and emptied. */
    method SaveQueueToFile(now: nat, fails: bool) returns (ioError: bool)
      modifies this
      ensures ioError <==> old(queue) != map[] && fails
      ensures old(queue) == map[] || fails ==> queue == old(queue) && dir == old(dir)
      ensures old(queue) != map[] && !fails ==> queue == map[] && dir == old(dir)[FileName(now) := old(queue)]
    {
      ioError := false;
      if queue != map[] {
        if fails {
          return true;
        }
        dir := dir[FileName(now) := queue];
        queue := map[];
      }
    }

    /** `putIntoQueue`. */
    method PutIntoQueue(r: Request, now: nat, saveFails: bool)
      modifies this
      ensures Store(queue, dir) == IntoQueue(old(Store(queue, dir)), r, now, saveFails)
    {
      if |queue| + 1 > MaxSizeOfRetryQueue {
        var ioError := SaveQueueToFile(now, saveFails);
        if !ioError {
          queue := queue[r.uri := r];
        }
      } else {
        queue := queue[r.uri := r];
      }
    }

    /** `putRetryIndexRequest`. */
    method PutRetryIndexRequest(r: Request, now: nat, saveFails: bool)
      modifies this
      ensures Store(queue, dir) == PutRequest(old(Store(queue, dir)), r, now, saveFails)
    {
      if r.uri !in queue {
        PutIntoQueue(r, now, saveFails);
      } else {
        var stored := queue[r.uri];
        if r.kind == Index && stored.kind == Delete {
          // logged as an error; the index request is dropped
        } else if r.kind == Delete {
          PutIntoQueue(r, now, saveFails);
        }
      }
    }

    /** `addRetryIndexRequests`: each request put in turn. */
    method AddRetryIndexRequests(rs: seq<Request>, nows: seq<nat>, saveFails: seq<bool>)
      requires |nows| == |rs| && |saveFails| == |rs|
      modifies this
      ensures Store(queue, dir) == PutAll(old(Store(queue, dir)), rs, nows, saveFails)
    {
      var i := 0;
      while i < |rs|
        invariant 0 <= i <= |rs|
        invariant Store(queue, dir) == PutAll(old(Store(queue, dir)), rs[..i], nows[..i], saveFails[..i])
      {
        PutAllStep(old(Store(queue, dir)), rs, nows, saveFails, i);
        PutRetryIndexRequest(rs[i], nows[i], saveFails[i]);
        i := i + 1;
      }
      assert rs[..i] == rs && nows[..i] == nows && saveFails[..i] == saveFails;
    }

    /** `findLatestRetryQueueFile` over the directory listing `names`. */
    method FindLatestRetryQueueFile(names: seq<string>) returns (r: Result<Option<string>, FindError>)
      ensures LatestUpTo(names, |names|).Failure? ==> r == Failure(LatestUpTo(names, |names|).error)
      ensures LatestUpTo(names, |names|).Success? ==> r == Success(LatestUpTo(names, |names|).value.file)
    {
      var latestTime := LongMin;
      var latestFile: Option<string> := None;
      var i := 0;
      while i < |names|
        invariant 0 <= i <= |names|
        invariant LatestUpTo(names, i) == Success(Choice(latestFile, latestTime))
      {
        var name := names[i];
        if IsBackupName(name) {
          var t := TimePart(name);
          if t.Failure? {
            LatestFailureSticks(names, i + 1, |names|);
            return Failure(t.error);
          }
          if t.value > latestTime {
            latestFile := Some(name);
            latestTime := t.value;
          }
        }
        i := i + 1;
      }
      r := Success(latestFile);
    }

    /**
     * `moreRequestsExist`: with an empty queue the latest backup file is
     * read into the queue and then deleted. A listing that cannot be read
     * throws; a file that cannot be read leaves the queue empty but still
     * answers true.
     */
    method MoreRequestsExist(names: seq<string>, readFails: bool, deleteFails: bool) returns (r: Result<bool, FindError>)
      modifies this
      ensures old(queue) != map[] ==> r == Success(true) && queue == old(queue) && dir == old(dir)
      ensures old(queue) == map[] && LatestUpTo(names, |names|).Failure? ==>
        r.Failure? && queue == old(queue) && dir == old(dir)
      ensures old(queue) == map[] && LatestUpTo(names, |names|).Success? ==>
        var latest := LatestUpTo(names, |names|).value.file;
        (r == Success(false) <==> latest.None?) &&
        (latest.None? || readFails || latest.value !in old(dir) ==> queue == old(queue) && dir == old(dir)) &&
        (latest.Some? && !readFails && latest.value in old(dir) ==>
          queue == old(dir)[latest.value] &&
          dir == if queue != map[] && !deleteFails then old(dir) - {latest.value} else old(dir))
    {
      if queue != map[] {
        return Success(true);
      }
      var found := FindLatestRetryQueueFile(names);
      if found.Failure? {
        return Failure(found.error);
      }
      if found.value.None? {
        return Success(false);
      }
      var f := found.value.value;
      if readFails || f !in dir {
        return Success(true);
      }
      queue := queue + dir[f];
      if queue != map[] && !deleteFails {
        dir := dir - {f};
      }
      r := Success(true);
    }
  }

  /** Once a listing prefix fails, every longer prefix fails the same way. */
  lemma {:induction false} LatestFailureSticks(names: seq<string>, i: nat, n: nat)
    requires i <= n <= |names|
    requires LatestUpTo(names, i).Failure?
    ensures LatestUpTo(names, n) == LatestUpTo(names, i)
    decreases n - i
  {
    if i < n {
      LatestFailureSticks(names, i + 1, n);
    }
  }
}
