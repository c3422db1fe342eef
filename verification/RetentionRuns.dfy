/** Applying retention to a target over a whole life of publishes, crashes,
    failed deletions and limit changes (internal/backup/retention_apply.go). */
module RetentionRuns {
  import opened Bytes
  import opened Wrappers
  import opened Retention

  /** An archive on the target: its modification time. */
  type Files = map<Text, int>

  /** The files a listing shows, newest first; equal times in any order. */
  ghost predicate Listing(files: Files, listed: seq<Text>) {
    && (forall x :: x in listed <==> x in files)
    && (forall i, j :: 0 <= i < j < |listed| ==> listed[i] != listed[j] && files[listed[i]] >= files[listed[j]])
  }

  /** One target of one instance. Runs are serialised by the instance's backup
      mutex, so at most one published archive waits for its run to be recorded. */
  class BackupTarget {
    const cal: Calendar
    var limits: Limits
    var files: Files
    var history: seq<Candidate>
    var pending: Option<Candidate>

    /** The target holds every archive that the keep set of all recorded runs
        asks for, and the archive of the run that is finishing. */
    ghost predicate Valid()
      reads this
    {
      && (forall c :: c in history && Kept(Members(history), cal, limits, c) ==> c.ref in files)
      && (pending.Some? ==> pending.value.ref in files)
    }

    constructor (cal: Calendar, limits: Limits)
      ensures Valid() && files == map[] && history == [] && pending == None
    {
      this.cal, this.limits, files, history, pending := cal, limits, map[], [], None;
    }

    /** While any level is enabled, that includes the newest recorded backup. */
    lemma NewestIsHeld(c: Candidate)
      requires Valid() && c in history && (forall d :: d in history ==> !Newer(d, c))
      requires Enabled(limits)
      ensures c.ref in files
    {
      NewestIsKept(Members(history), cal, limits, c);
    }

    /** The archive reaches its final name; its run is not yet recorded. */
    method Publish(c: Candidate, modified: int)
      requires Valid()
      modifies this`files, this`pending
      ensures Valid() && files == old(files)[c.ref := modified] && pending == Some(c)
    {
      files := files[c.ref := modified];
      pending := Some(c);
    }

    /** The run is recorded as succeeded. */
    method Record()
      requires Valid() && pending.Some?
      modifies this`history, this`pending
      ensures Valid() && history == old(history) + [old(pending).value] && pending == None
    {
      ghost var was := Members(history);
      history := history + [pending.value];
      assert was <= Members(history);
      forall c | c in history && Kept(Members(history), cal, limits, c) ensures c.ref in files {
        if c in was && !Kept(was, cal, limits, c) {
          NeverKeptAgain(was, Members(history), cal, limits, limits, c);
        }
      }
      pending := None;
    }

    /** The process dies before the run is recorded: the archive stays, unknown. */
    method Crash()
      requires Valid()
      modifies this`pending
      ensures Valid() && pending == None
    {
      pending := None;
    }

    /** Limits may change as long as nothing given up is asked for again. */
    method ChangeLimits(l: Limits)
      requires Valid() && NoHigher(limits, l)
      modifies this`limits
      ensures Valid() && limits == l
    {
      forall c | c in history && Kept(Members(history), cal, l, c) ensures c.ref in files {
        if !Kept(Members(history), cal, limits, c) {
          NeverKeptAgain(Members(history), Members(history), cal, limits, l, c);
        }
      }
      limits := l;
    }

    /** `ApplyRetention` with `reconcileLocal` (or `reconcileR2` over the final
        archives): deletes what the keep set does not ask for, sparing the first
        file listed; `stuck` are the files whose deletion fails. */
    method ApplyRetention(listed: seq<Text>, stuck: set<Text>)
      requires Valid() && pending.None? && Listing(files, listed)
      modifies this`files
      ensures Valid()
      ensures history == [] ==> files == old(files)
      ensures forall x :: x in files ==> x in old(files) && files[x] == old(files)[x]
      ensures history != [] ==> forall x :: x in old(files) ==>
                (x in files <==> (|| x == listed[0] || x in stuck
                                  || exists c :: c in history && Kept(Members(history), cal, limits, c) && c.ref == x))
      ensures listed != [] ==> listed[0] in files
      ensures stuck == {} && history != [] ==>
                |files| <= 1 + Max0(limits.daily) + Max0(limits.weekly) + Max0(limits.monthly)
    {
      if history == [] {
        return;
      }
      var keep := KeepSet(history, cal, limits);
      hide *;
      files := Reconcile(files, listed, keep, stuck);
    }
  }

  /** The deletion loop. */
  method Reconcile(files: Files, listed: seq<Text>, keep: set<Text>, stuck: set<Text>) returns (left: Files)
    requires Listing(files, listed)
    ensures forall x :: x in left ==> x in files && left[x] == files[x]
    ensures forall x :: x in files ==> (x in left <==> x == listed[0] || x in stuck || x in keep)
    ensures stuck == {} ==> |left| <= |keep| + 1
  {
    left := files;
    for i := 0 to |listed|
      invariant forall x :: x in left ==> x in files && left[x] == files[x]
      invariant forall j :: i <= j < |listed| ==> listed[j] in left
      invariant forall j :: 0 <= j < i ==> (listed[j] in left <==> j == 0 || listed[j] in stuck || listed[j] in keep)
    {
      var x := listed[i];
      if i > 0 && x !in keep && x !in stuck {
        left := left - {x};
      }
    }
    forall x | x in files ensures x in left <==> x == listed[0] || x in stuck || x in keep {
      var j :| 0 <= j < |listed| && listed[j] == x;
    }
    if stuck == {} {
      if listed == [] {
        assert left.Keys == {};
      } else {
        SizeAtMost(left.Keys, keep, listed[0]);
      }
    }
  }

  lemma SizeAtMost(some: set<Text>, keep: set<Text>, x: Text)
    requires forall y :: y in some ==> y in keep || y == x
    ensures |some| <= |keep| + 1
  {
    var all := keep + {x};
    assert all == some + (all - some);
  }
}
