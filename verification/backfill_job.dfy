/** The backfill script: its loops, its checkpoint file, and what any number of runs leaves behind. */
module BackfillJobs {
  import opened Values
  import opened Tables
  import opened Statements
  import opened Columns
  import opened Backfill

  /** A table to load: its static source and the columns of its rows. */
  datatype Job = Job(rows: seq<SourceRow>, cols: seq<string>) {
    /** The hypotheses: positive unique ids, read in id order, and one set of columns. */
    ghost predicate Ok() { Ascending(rows) && SameKeys(rows, cols) }
  }

  /** At most the entry of `t` has changed. */
  ghost predicate OnlyAt<T>(m: map<string, T>, m': map<string, T>, t: string) {
    t in m' && m' == m[t := m'[t]]
  }

  lemma OnlyAtTwice<T>(a: map<string, T>, b: map<string, T>, c: map<string, T>, t: string)
    requires OnlyAt(a, b, t) && OnlyAt(b, c, t)
    ensures OnlyAt(a, c, t)
  {
  }

  lemma OnlyAtSame<T>(m: map<string, T>, t: string)
    requires t in m
    ensures OnlyAt(m, m, t)
  {
  }

  lemma OnlyAtSet<T>(m: map<string, T>, m': map<string, T>, t: string, v: T)
    requires OnlyAt(m, m', t)
    ensures OnlyAt(m, m'[t := v], t)
  {
  }

  ghost predicate CacheOk(cache: map<nat, seq<seq<string>>>, cols: seq<string>) {
    forall n :: n in cache ==> cache[n] == Template(cols, n)
  }

  function Sum(sizes: seq<nat>): nat {
    if sizes == [] then 0 else Sum(sizes[..|sizes| - 1]) + sizes[|sizes| - 1]
  }

  /** The INSERTs of a page have `size` rows each, the last one perhaps fewer. */
  ghost predicate FullButLast(sizes: seq<nat>, size: nat) {
    forall i :: 0 <= i < |sizes| ==> 0 < sizes[i] <= size && (i < |sizes| - 1 ==> sizes[i] == size)
  }

  ghost predicate AllFull(sizes: seq<nat>, size: nat) { forall i :: 0 <= i < |sizes| ==> sizes[i] == size }

  lemma NoSizes(size: nat)
    ensures AllFull([], size) && FullButLast([], size) && Sum([]) == 0
  {
  }

  lemma OneMoreSize(sizes: seq<nat>, size: nat, n: nat)
    requires AllFull(sizes, size) && 0 < n <= size
    ensures Sum(sizes + [n]) == Sum(sizes) + n && FullButLast(sizes + [n], size)
    ensures n == size ==> AllFull(sizes + [n], size)
  {
    assert (sizes + [n])[..|sizes|] == sizes;
  }

  /** One INSERT binds exactly the rows of its batch. */
  lemma InsertBinds(src: seq<SourceRow>, cols: seq<string>, dicts: seq<Dict>, a: nat, b: nat)
    requires a <= b <= |src| && |dicts| == |src|
    requires forall i :: 0 <= i < |src| ==> dicts[i] == RowToLoad(src[i].data)
    ensures var params := Flatten(Rows(dicts[a..b]), cols);
            |params| == Placeholders(Template(cols, b - a))
            && Bind(Template(cols, b - a), params) == Loaded(src[a..b], cols)
  {
    hide RowToLoad, Flatten, Bind, Placeholders, Project;
    var batch := Rows(dicts[a..b]);
    BindExact(batch, cols);
    forall i | 0 <= i < b - a ensures batch[i] == RowToLoad(src[a..b][i].data).at {
      assert dicts[a..b][i] == dicts[a + i];
    }
    assert Projected(batch, cols) == Loaded(src[a..b], cols);
  }

  class BackfillJob {
    const jobs: map<string, Job>
    const order: seq<string>
    const pageSize: nat
    const insertBatch: nat
    /** The target tables, by the name of their source. */
    var target: map<string, Table>
    /** The checkpoint file. */
    var lastId: map<string, int>
    var finished: set<string>
    /** Whether that file can be read: a write of it that is cut short leaves it torn. */
    var readable: bool
    /** How many statements, polls and writes of the file have failed so far. */
    ghost var mishaps: nat
    /** How earlier runs of each table stopped. */
    ghost var stops: map<string, seq<Stop>>

    ghost predicate Shape()
      reads this
    {
      && pageSize >= 1 && insertBatch >= 1
      && (forall t :: t in order ==> t in jobs)
    }

    /** Each table is where its stops left it, or completely loaded. */
    ghost predicate Valid()
      reads this
    {
      Shape() && AllOk(jobs, pageSize, target, lastId, stops, finished)
    }

    constructor (jobs: map<string, Job>, order: seq<string>, pageSize: nat, insertBatch: nat,
                 target: map<string, Table>)
      requires pageSize >= 1 && insertBatch >= 1 && (forall t :: t in order ==> t in jobs)
      requires forall t :: t in jobs ==> jobs[t].Ok() && t in target
      ensures Valid() && this.jobs == jobs && this.order == order
      ensures this.pageSize == pageSize && this.insertBatch == insertBatch
      ensures finished == {} && this.target == target && readable
      ensures lastId == (map t | t in jobs :: 0) && stops == map t | t in jobs :: []
    {
      this.readable, this.mishaps := true, 0;
      this.jobs, this.order, this.pageSize, this.insertBatch := jobs, order, pageSize, insertBatch;
      this.target := target;
      this.lastId := map t | t in jobs :: 0;
      this.finished := {};
      this.stops := map t | t in jobs :: [];
      new;
      forall t | t in jobs ensures TableOk(jobs[t], pageSize, Load(this.target[t], lastId[t]), stops[t], false) {
        FreshTableOk(jobs[t], pageSize, this.target[t]);
      }
    }

    /** The INSERT batches of one page. */
    method InsertPage(table: string, rows: seq<SourceRow>, cache0: map<nat, seq<seq<string>>>)
        returns (ok: bool, cache: map<nat, seq<seq<string>>>, ghost done: nat, ghost sizes: seq<nat>)
      requires table in jobs && table in target && insertBatch >= 1
      requires rows != [] && SameKeys(rows, jobs[table].cols) && CacheOk(cache0, jobs[table].cols)
      modifies `target, `mishaps
      ensures CacheOk(cache, jobs[table].cols) && done <= |rows| && (ok ==> done == |rows|)
      ensures target == old(target)[table := old(target[table]) + Loaded(rows[..done], jobs[table].cols)]
      ensures FullButLast(sizes, insertBatch) && done <= Sum(sizes) <= |rows| && (ok ==> Sum(sizes) == |rows|)
      ensures mishaps == old(mishaps) + if ok then 0 else 1
    {
      hide RowToLoad, Loaded, Flatten, Bind, Placeholders, Sum, FullButLast, AllFull;
      NoSizes(insertBatch);
      var sfRows := ConvertRows(rows);
      var allCols := sfRows[0].keys;
      cache, done, sizes := cache0, 0, [];
      var start: nat := 0;
      EmptyPage(rows, allCols);
      assert old(target[table]) + [] == old(target[table]);
      while start < |rows|
        invariant start <= |rows| && done == start == Sum(sizes) && CacheOk(cache, allCols)
        invariant FullButLast(sizes, insertBatch) && mishaps == old(mishaps)
        invariant start < |rows| ==> AllFull(sizes, insertBatch)
        invariant target == old(target)[table := old(target[table]) + Loaded(rows[..start], allCols)]
      {
        var end := if start + insertBatch <= |rows| then start + insertBatch else |rows|;
        var n := end - start;
        if n !in cache {
          cache := cache[n := Template(allCols, n)];
        }
        var params := Flatten(Rows(sfRows[start..end]), allCols);
        InsertBinds(rows, allCols, sfRows, start, end);
        LoadedCut(rows, allCols, 0, start, end);
        assert rows[0..start] == rows[..start] && rows[0..end] == rows[..end];
        AppendTwice(old(target), table, old(target[table]), Loaded(rows[..start], allCols),
                    Loaded(rows[start..end], allCols));
        OneMoreSize(sizes, insertBatch, n);
        sizes := sizes + [n];
        var fate: Fate := *;
        if !fate.FailsWithoutEffect? {
          target := target[table := target[table] + Bind(cache[n], params)];
          done := end;
        }
        if !fate.Succeeds? {
          mishaps := mishaps + 1;
          return false, cache, done, sizes;
        }
        start := end;
      }
      assert rows[..|rows|] == rows;
      ok := true;
    }

    /**
     Writes the file. A write that raises may leave it as it was, torn, or with its new content;
     `written` says whether the new content is there.
     */
    method SaveCheckpoint() returns (saves: bool, written: bool)
      modifies `readable, `mishaps
      ensures saves ==> written
      ensures mishaps == old(mishaps) + if saves then 0 else 1
      ensures written ==> readable == old(readable)
      ensures readable ==> old(readable)
    {
      saves, written := *, *;
      mishaps := mishaps + if saves then 0 else 1;
      if saves {
        written := true;
      } else if !written {
        var torn: bool := *;
        if torn {
          readable := false;
        }
      }
    }

    /** `TRUNCATE` on a fresh start; false if it failed, with or without effect. */
    method EmptyIfFresh(table: string, startId: int) returns (goes: bool)
      requires table in target
      modifies `target, `mishaps
      ensures mishaps == old(mishaps) + if goes then 0 else 1
      ensures table in target && OnlyAt(old(target), target, table)
      ensures target[table] == (if startId == 0 then [] else old(target[table]))
           || (!goes && target[table] == old(target[table]))
    {
      goes := true;
      if startId == 0 {
        var fate: Fate := *;
        if !fate.FailsWithoutEffect? {
          target := target[table := []];
        }
        goes := fate.Succeeds?;
        mishaps := mishaps + if goes then 0 else 1;
      }
    }

    /**
     Loads one table from its checkpoint on. It may stop at any point; `stop` says where. `last`
     is its local variable, the checkpoint file follows it page by page.
     */
    method BackfillTable(table: string, startId: int) returns (done: bool, last: int, ghost stop: Stop)
      requires pageSize >= 1 && insertBatch >= 1
      requires table in jobs && jobs[table].Ok() && table in target && table in lastId && startId == lastId[table]
      modifies `target, `lastId, `readable, `mishaps
      ensures table in target && OnlyAt(old(target), target, table)
      ensures table in lastId && OnlyAt(old(lastId), lastId, table)
      ensures var job, s := jobs[table], Load(old(target)[table], startId);
              && RunsTo(job.rows, job.cols, s, Load(target[table], lastId[table]), stop)
              && stop.extra <= pageSize
              && (done ==> Appends(job.rows, job.cols, s, Load(target[table], last), Stop(|job.rows|, 0)))
      ensures mishaps == old(mishaps) + if done then 0 else 1
    {
      hide Loaded, Page, Ascending, Appends, SameKeys, Covered, OnlyAt;
      OnlyAtSame(target, table);
      OnlyAtSame(lastId, table);
      ghost var rows, cols, start := jobs[table].rows, jobs[table].cols, Load(target[table], startId);
      ghost var p := Covered(rows, startId);
      stop, last := Stop(p, 0), startId;
      JustStarted(rows, cols, start);
      var goes := EmptyIfFresh(table, startId);
      if !goes {
        return false, last, stop;
      }
      var cache: map<nat, seq<seq<string>>> := map[];
      while true
        invariant table in target && OnlyAt(old(target), target, table)
        invariant table in lastId && OnlyAt(old(lastId), lastId, table) && lastId[table] == last
        invariant mishaps == old(mishaps)
        invariant CacheOk(cache, cols) && Covered(rows, last) == stop.at && stop.extra == 0
        invariant Appends(rows, cols, start, Load(target[table], last), stop)
        decreases |rows| - Covered(rows, last)
      {
        PageIsNext(rows, cols, last, pageSize);
        var answers: bool := *;
        if !answers {
          mishaps := mishaps + 1;
          return false, last, stop;
        }
        var page := Page(jobs[table].rows, last, pageSize);
        if page == [] {
          return true, last, stop;
        }
        var ok: bool;
        ghost var target1, lastId1 := target, lastId;
        ok, last, cache, stop := LoadPage(table, last, page, cache, start, stop.at);
        OnlyAtTwice(old(target), target1, target, table);
        OnlyAtTwice(old(lastId), lastId1, lastId, table);
        if !ok {
          return false, last, stop;
        }
      }
    }

    /** One page and its checkpoint; false if the script stopped on the way. */
    method LoadPage(table: string, last0: int, page: seq<SourceRow>, cache0: map<nat, seq<seq<string>>>,
                    ghost start: Load, ghost at: nat)
        returns (ok: bool, last: int, cache: map<nat, seq<seq<string>>>, ghost stop: Stop)
      requires table in jobs && table in target && table in lastId && lastId[table] == last0 && insertBatch >= 1
      requires Ascending(jobs[table].rows) && SameKeys(page, jobs[table].cols) && CacheOk(cache0, jobs[table].cols)
      requires page != [] && |page| <= pageSize && at + |page| <= |jobs[table].rows|
      requires page == jobs[table].rows[at..at + |page|]
      requires Appends(jobs[table].rows, jobs[table].cols, start, Load(target[table], last0), Stop(at, 0))
      modifies `target, `lastId, `readable, `mishaps
      ensures table in target && OnlyAt(old(target), target, table)
      ensures table in lastId && OnlyAt(old(lastId), lastId, table)
      ensures CacheOk(cache, jobs[table].cols) && stop.extra <= pageSize
      ensures Appends(jobs[table].rows, jobs[table].cols, start, Load(target[table], lastId[table]), stop)
      ensures mishaps == old(mishaps) + if ok then 0 else 1
      ensures ok ==> last == lastId[table] == page[|page| - 1].id && stop == Stop(at + |page|, 0)
                     && Covered(jobs[table].rows, last) == stop.at
    {
      hide Loaded, Ascending, Appends, SameKeys, Covered;
      ghost var rows, cols := jobs[table].rows, jobs[table].cols;
      ghost var before := Load(target[table], last0);
      ghost var written: nat;
      last := last0;
      ghost var sizes;
      ok, cache, written, sizes := InsertPage(table, page, cache0);
      PageWritten(rows, cols, start, before, Load(target[table], last0), Stop(at, 0), page, written);
      stop := Stop(at, written);
      if !ok {
        return;
      }
      last := page[|page| - 1].id;
      PageCovered(rows, cols, start, Load(target[table], last0), at, page);
      var saves, inFile := SaveCheckpoint();
      if inFile {
        stop := Stop(at + |page|, 0);
        lastId := lastId[table := last];
      }
      ok := saves;
    }

    /**
     The script: the tables in order, skipping those the checkpoint says are done. It gets through
     the first `reached` tables, and `stopped` is the one it then stops in, if any.
     */
    method RunScript() returns (completed: bool, ghost reached: nat, ghost stopped: set<string>)
      requires Valid()
      modifies this
      ensures Valid() && reached <= |order| && old(finished) <= finished <= old(finished) + Names(order[..reached])
      ensures Names(order[..reached]) <= finished
      ensures stopped == {} || (reached < |order| && stopped == {order[reached]})
      ensures AllRan(jobs, pageSize, old(target), target, old(lastId), lastId, old(stops), stops, old(finished),
                     finished, stopped)
      ensures completed ==> old(readable) && reached == |order| && stopped == {}
      ensures !old(readable) ==> stopped == {} && finished == old(finished) && !readable
      ensures completed <==> old(readable) && mishaps == old(mishaps)
    {
      hide AllOk, AllRan, Names;
      reached, stopped := 0, {};
      NoNames();
      NoneRan(jobs, pageSize, target, lastId, stops, finished);
      if !readable {
        return false, reached, stopped;
      }
      for i := 0 to |order|
        invariant Valid() && reached == i && stopped == {} && old(readable) && mishaps == old(mishaps)
        invariant old(finished) <= finished <= old(finished) + Names(order[..i])
        invariant Names(order[..i]) <= finished
        invariant AllRan(jobs, pageSize, old(target), target, old(lastId), lastId, old(stops), stops, old(finished),
                         finished, {})
      {
        MoreNames(order, i);
        if order[i] !in finished {
          ghost var target1, lastId1, stops1, finished1 := target, lastId, stops, finished;
          var done := RunTable(order[i]);
          stopped := {order[i]} - finished;
          AllRanMore(jobs, pageSize, old(target), target1, target, old(lastId), lastId1, lastId, old(stops), stops1,
                     stops, old(finished), finished1, finished, order[i], stopped);
          if !done {
            reached := if stopped == {} then i + 1 else i;
            return false, reached, stopped;
          }
        }
        reached := i + 1;
      }
      assert order[..|order|] == order;
      completed := true;
    }

    /**
     One table of the script, up to its entry in the checkpoint file. That entry is there if the
     table comes out finished, which it can even where the script stops.
     */
    method RunTable(table: string) returns (done: bool)
      requires Valid() && table in jobs && table !in finished
      modifies this
      ensures Valid() && (done ==> table in finished)
      ensures mishaps == old(mishaps) + if done then 0 else 1
      ensures finished == old(finished) || finished == old(finished) + {table}
      ensures table in old(target) && table in old(lastId) && table in old(stops)
      ensures OnlyAt(old(target), target, table) && OnlyAt(old(lastId), lastId, table)
      ensures OnlyAt(old(stops), stops, table)
      ensures Ran(jobs[table], pageSize, Load(old(target)[table], old(lastId)[table]),
                  Load(target[table], lastId[table]), old(stops)[table], stops[table], table in finished)
    {
      hide TableOk, AllOk, OnlyAt, RunsTo, Appends, Job.Ok, Ascending, SameKeys, Covered;
      AllOkAt(jobs, pageSize, target, lastId, stops, finished, table);
      ghost var job, s := jobs[table], Load(target[table], lastId[table]);
      ghost var stop;
      var last, inFile;
      OnlyAtSame(stops, table);
      TableOkJob(job, pageSize, s, stops[table], false);
      done, last, stop := BackfillTable(table, lastId[table]);
      inFile := false;
      if done {
        done, inFile := SaveCheckpoint();
      }
      if inFile {
        TableCompletes(job, pageSize, s, Load(target[table], last), stops[table]);
        OnlyAtSet(old(lastId), lastId, table, last);
        lastId := lastId[table := last];
        finished := finished + {table};
      } else {
        TableStops(job, pageSize, s, Load(target[table], lastId[table]), stops[table], stop);
        stops := stops[table := stops[table] + [stop]];
      }
      OnlyAtSet(old(stops), old(stops), table, stops[table]);
      AllOkKept(jobs, pageSize, old(target), target, old(lastId), lastId, old(stops), stops, old(finished), finished,
                table);
    }
  }

  ghost function Names(order: seq<string>): set<string> {
    set t | t in order
  }

  lemma NoNames()
    ensures forall order: seq<string> :: Names(order[..0]) == {}
  {
  }

  lemma MoreNames(order: seq<string>, i: nat)
    requires i < |order|
    ensures Names(order[..i + 1]) == Names(order[..i]) + {order[i]}
  {
    assert order[..i + 1] == order[..i] + [order[i]];
  }

  /**
   What one run does to one table it works on: it loads the rest of it and leaves its stops alone,
   or it stops once, within a page of a checkpoint.
   */
  ghost predicate Ran(job: Job, pageSize: nat, s: Load, s': Load, was: seq<Stop>, now: seq<Stop>, done: bool) {
    if done then now == was && Appends(job.rows, job.cols, s, s', Stop(|job.rows|, 0))
    else
      && |now| == |was| + 1 && now[..|was|] == was
      && RunsTo(job.rows, job.cols, s, s', now[|was|]) && now[|was|].extra <= pageSize
  }

  /** What one run of the script does to every table: those it neither finished nor stopped in are as they were. */
  ghost predicate AllRan(jobs: map<string, Job>, pageSize: nat, target: map<string, Table>, target': map<string, Table>,
                         lastId: map<string, int>, lastId': map<string, int>, stops: map<string, seq<Stop>>,
                         stops': map<string, seq<Stop>>, finished: set<string>, finished': set<string>,
                         stopped: set<string>) {
    forall t :: t in jobs ==>
      && t in target && t in target' && t in lastId && t in lastId' && t in stops && t in stops'
      && if t in finished || (t !in finished' && t !in stopped)
         then target'[t] == target[t] && lastId'[t] == lastId[t] && stops'[t] == stops[t]
         else Ran(jobs[t], pageSize, Load(target[t], lastId[t]), Load(target'[t], lastId'[t]), stops[t], stops'[t],
                  t !in stopped)
  }

  lemma NoneRan(jobs: map<string, Job>, pageSize: nat, target: map<string, Table>, lastId: map<string, int>,
                stops: map<string, seq<Stop>>, finished: set<string>)
    requires AllOk(jobs, pageSize, target, lastId, stops, finished)
    ensures AllRan(jobs, pageSize, target, target, lastId, lastId, stops, stops, finished, finished, {})
  {
    hide TableOk, Ran;
  }

  /** One table more. */
  lemma AllRanMore(jobs: map<string, Job>, pageSize: nat, target: map<string, Table>, target1: map<string, Table>,
                   target2: map<string, Table>, lastId: map<string, int>, lastId1: map<string, int>,
                   lastId2: map<string, int>,
                   stops: map<string, seq<Stop>>, stops1: map<string, seq<Stop>>, stops2: map<string, seq<Stop>>,
                   finished: set<string>, finished1: set<string>, finished2: set<string>, t: string,
                   stopped: set<string>)
    requires AllRan(jobs, pageSize, target, target1, lastId, lastId1, stops, stops1, finished, finished1, {})
    requires t in jobs && t !in finished1 && finished <= finished1
    requires OnlyAt(target1, target2, t) && OnlyAt(lastId1, lastId2, t) && OnlyAt(stops1, stops2, t)
    requires (finished2 == finished1 && stopped == {t}) || (finished2 == finished1 + {t} && stopped == {})
    requires t in target1 && t in lastId1 && t in stops1
    requires Ran(jobs[t], pageSize, Load(target1[t], lastId1[t]), Load(target2[t], lastId2[t]), stops1[t], stops2[t],
                 t in finished2)
    ensures AllRan(jobs, pageSize, target, target2, lastId, lastId2, stops, stops2, finished, finished2, stopped)
  {
    hide Ran;
    forall u | u in jobs && u != t
      ensures u in target2 && target2[u] == target1[u] && u in lastId2 && lastId2[u] == lastId1[u]
      ensures u in stops2 && stops2[u] == stops1[u]
    {
    }
  }

  /** Every table is where its stops left it, or completely loaded. */
  ghost predicate AllOk(jobs: map<string, Job>, pageSize: nat, target: map<string, Table>, lastId: map<string, int>,
                        stops: map<string, seq<Stop>>, finished: set<string>) {
    forall t :: t in jobs ==>
      && t in target && t in lastId && t in stops
      && TableOk(jobs[t], pageSize, Load(target[t], lastId[t]), stops[t], t in finished)
  }

  lemma AllOkAt(jobs: map<string, Job>, pageSize: nat, target: map<string, Table>, lastId: map<string, int>,
                stops: map<string, seq<Stop>>, finished: set<string>, t: string)
    requires AllOk(jobs, pageSize, target, lastId, stops, finished) && t in jobs
    ensures t in target && t in lastId && t in stops
    ensures TableOk(jobs[t], pageSize, Load(target[t], lastId[t]), stops[t], t in finished)
  {
    hide TableOk;
  }

  /** A step that changes one table only. */
  lemma AllOkKept(jobs: map<string, Job>, pageSize: nat, target: map<string, Table>, target': map<string, Table>,
                  lastId: map<string, int>, lastId': map<string, int>, stops: map<string, seq<Stop>>,
                  stops': map<string, seq<Stop>>, finished: set<string>, finished': set<string>, t: string)
    requires AllOk(jobs, pageSize, target, lastId, stops, finished) && t in jobs
    requires OnlyAt(target, target', t) && OnlyAt(lastId, lastId', t) && OnlyAt(stops, stops', t)
    requires forall u :: u != t ==> (u in finished' <==> u in finished)
    requires TableOk(jobs[t], pageSize, Load(target'[t], lastId'[t]), stops'[t], t in finished')
    ensures AllOk(jobs, pageSize, target', lastId', stops', finished')
  {
    hide TableOk;
    forall u | u in jobs
      ensures u in target' && u in lastId' && u in stops'
      ensures TableOk(jobs[u], pageSize, Load(target'[u], lastId'[u]), stops'[u], u in finished')
    {
      if u != t {
        assert target'[u] == target[u] && lastId'[u] == lastId[u] && stops'[u] == stops[u];
      }
    }
  }

  /** Where a table stands: in progress after its stops, or completely loaded. */
  ghost predicate TableOk(job: Job, pageSize: nat, s: Load, stops: seq<Stop>, done: bool) {
    && job.Ok()
    && StopsOk(job.rows, pageSize, stops)
    && if done then multiset(s.target) == multiset(Loaded(job.rows, job.cols)) + Extras(job.rows, job.cols, stops)
       else Progress(job.rows, job.cols, pageSize, s, stops)
  }

  lemma TableOkJob(job: Job, pageSize: nat, s: Load, stops: seq<Stop>, done: bool)
    requires TableOk(job, pageSize, s, stops, done)
    ensures job.Ok()
  {
  }

  lemma FreshTableOk(job: Job, pageSize: nat, target: Table)
    requires job.Ok()
    ensures TableOk(job, pageSize, Load(target, 0), [], false)
  {
    hide Job.Ok;
  }

  lemma TableStops(job: Job, pageSize: nat, s: Load, s': Load, stops: seq<Stop>, stop: Stop)
    requires TableOk(job, pageSize, s, stops, false)
    requires RunsTo(job.rows, job.cols, s, s', stop) && stop.extra <= pageSize
    ensures TableOk(job, pageSize, s', stops + [stop], false)
  {
    hide Progress, RunsTo, SameKeys, Ascending;
    StopKeepsProgress(job.rows, job.cols, pageSize, s, s', stops, stop);
    ProgressStops(job.rows, job.cols, pageSize, s', stops + [stop]);
  }

  lemma ProgressStops(src: seq<SourceRow>, cols: seq<string>, pageSize: nat, s: Load, stops: seq<Stop>)
    requires Progress(src, cols, pageSize, s, stops)
    ensures StopsOk(src, pageSize, stops)
  {
  }

  lemma TableCompletes(job: Job, pageSize: nat, s: Load, s': Load, stops: seq<Stop>)
    requires TableOk(job, pageSize, s, stops, false) && Appends(job.rows, job.cols, s, s', Stop(|job.rows|, 0))
    ensures TableOk(job, pageSize, s', stops, true)
  {
    hide Progress, Appends, SameKeys, Ascending, StopsOk;
    CompletedLoad(job.rows, job.cols, pageSize, s, s', stops);
  }

  /** A run that has emptied the target when it had to, and done nothing else yet. */
  lemma JustStarted(rows: seq<SourceRow>, cols: seq<string>, s: Load)
    ensures RunsTo(rows, cols, s, s, Stop(Covered(rows, s.last), 0))
    ensures Appends(rows, cols, s, Load(if s.last == 0 then [] else s.target, s.last), Stop(Covered(rows, s.last), 0))
  {
    NothingLoaded(rows, cols, Covered(rows, s.last));
    assert s.target + [] == s.target;
  }

  /** A page is the next rows after those the checkpoint covers, and empty only at the end. */
  lemma PageIsNext(rows: seq<SourceRow>, cols: seq<string>, last: int, size: nat)
    requires Ascending(rows) && SameKeys(rows, cols) && size >= 1
    ensures var p, page := Covered(rows, last), Page(rows, last, size);
            && p + |page| <= |rows| && |page| <= size && page == rows[p..p + |page|]
            && (page == [] <==> p == |rows|) && SameKeys(page, cols)
            && (p + |page| == |rows| || |page| == size)
  {
    hide Above, Covered, Ascending, SameKeys, Limit;
    AscendingIsSorted(rows);
    AboveIsTail(rows, last);
    var p, page := Covered(rows, last), Page(rows, last, size);
    TakeTail(rows, p, size);
    SameKeysPart(rows, cols, p, p + |page|);
  }

  lemma SameKeysPart(rows: seq<SourceRow>, cols: seq<string>, a: nat, b: nat)
    requires SameKeys(rows, cols) && a <= b <= |rows|
    ensures SameKeys(rows[a..b], cols)
  {
    hide RowToLoad;
    assert forall i :: 0 <= i < b - a ==> rows[a..b][i] == rows[a + i];
  }

  lemma PageWritten(rows: seq<SourceRow>, cols: seq<string>, start: Load, before: Load, now: Load, stop: Stop,
                    page: seq<SourceRow>, written: nat)
    requires Appends(rows, cols, start, before, stop) && stop.extra == 0 && now.last == before.last
    requires stop.at + |page| <= |rows| && page == rows[stop.at..stop.at + |page|] && written <= |page|
    requires now.target == before.target + Loaded(page[..written], cols)
    ensures Appends(rows, cols, start, now, Stop(stop.at, written))
  {
    hide Loaded;
    LoadedCut(rows, cols, Covered(rows, start.last), stop.at, stop.at + written);
    assert page[..written] == rows[stop.at..stop.at + written];
  }

  lemma PageCovered(rows: seq<SourceRow>, cols: seq<string>, start: Load, now: Load, at: nat, page: seq<SourceRow>)
    requires Ascending(rows) && page != [] && Appends(rows, cols, start, now, Stop(at, |page|))
    requires at + |page| <= |rows| && page == rows[at..at + |page|]
    ensures Covered(rows, page[|page| - 1].id) == at + |page|
    ensures Appends(rows, cols, start, Load(now.target, page[|page| - 1].id), Stop(at + |page|, 0))
  {
    hide Appends, Ascending, Covered;
    assert page[|page| - 1] == rows[at + |page| - 1];
    CoveredAt(rows, at + |page|);
    CheckpointMoves(rows, cols, start, now, at, |page|);
  }

  lemma CheckpointMoves(rows: seq<SourceRow>, cols: seq<string>, start: Load, now: Load, at: nat, n: nat)
    requires n > 0 && at + n <= |rows| && Appends(rows, cols, start, now, Stop(at, n))
    ensures Appends(rows, cols, start, Load(now.target, rows[at + n - 1].id), Stop(at + n, 0))
  {
    hide Loaded, Covered;
    assert (at + n) + 0 == at + n;
  }

  lemma AppendTwice(m: map<string, Table>, name: string, t: Table, a: Table, b: Table)
    ensures m[name := t + a][name := (t + a) + b] == m[name := t + (a + b)]
  {
    assert (t + a) + b == t + (a + b);
  }

  lemma EmptyPage(rows: seq<SourceRow>, cols: seq<string>)
    ensures Loaded(rows[..0], cols) == []
  {
  }

  method ConvertRows(rows: seq<SourceRow>) returns (sfRows: seq<Dict>)
    ensures |sfRows| == |rows| && forall i :: 0 <= i < |rows| ==> sfRows[i] == RowToLoad(rows[i].data)
  {
    hide RowToLoad;
    sfRows := [];
    for i := 0 to |rows|
      invariant |sfRows| == i && forall j :: 0 <= j < i ==> sfRows[j] == RowToLoad(rows[j].data)
    {
      var row := BuildLoadRow(rows[i].data);
      sfRows := sfRows + [row];
    }
  }

  /**
   A completely loaded table has every source row exactly once if and only if each earlier run
   stopped at a page checkpoint or before the first one.
   */
  lemma {:induction false} LoadsOnceIffCleanStops(job: Job, pageSize: nat, s: Load, stops: seq<Stop>)
    requires TableOk(job, pageSize, s, stops, true)
    ensures SameRows(s.target, Loaded(job.rows, job.cols)) <==> CleanStops(stops)
  {
    hide Loaded, CleanStops;
    CleanStopsIffNoExtras(job.rows, job.cols, stops);
    var once, extra := multiset(Loaded(job.rows, job.cols)), Extras(job.rows, job.cols, stops);
    assert (once + extra) - once == extra;
  }

  /**
   Wherever runs stopped, a completely loaded table misses no row, and extra copies come from pages
   in flight at a stop.
   */
  lemma StoppedRunsLoadAtLeastOnce(job: Job, pageSize: nat, s: Load, stops: seq<Stop>, r: Row)
    requires TableOk(job, pageSize, s, stops, true)
    ensures multiset(s.target)[r] >= multiset(Loaded(job.rows, job.cols))[r]
    ensures multiset(s.target)[r] > multiset(Loaded(job.rows, job.cols))[r] ==>
              exists i :: 0 <= i < |stops| && stops[i].at > 0
                          && r in Loaded(job.rows[stops[i].at..stops[i].at + stops[i].extra], job.cols)
  {
    hide Loaded;
    if multiset(s.target)[r] > multiset(Loaded(job.rows, job.cols))[r] {
      var i := ExtraComesFromStop(job, stops, r);
    }
  }

  lemma {:induction false} ExtraComesFromStop(job: Job, stops: seq<Stop>, r: Row) returns (i: nat)
    requires forall i :: 0 <= i < |stops| ==> stops[i].at + stops[i].extra <= |job.rows|
    requires r in Extras(job.rows, job.cols, stops)
    ensures i < |stops| && stops[i].at > 0 && r in Loaded(job.rows[stops[i].at..stops[i].at + stops[i].extra], job.cols)
  {
    hide Loaded;
    i := |stops| - 1;
    var init := stops[..i];
    if r in Extras(job.rows, job.cols, init) {
      i := ExtraComesFromStop(job, init, r);
    } else {
      assert r in multiset(Loaded(job.rows[stops[i].at..stops[i].at + stops[i].extra], job.cols));
    }
  }

  // ---- From the first start to the end ----------------------------------------------------------

  /** A table that was loaded once, and after `stopped` runs that stopped. */
  ghost predicate LoadedAfter(job: Job, pageSize: nat, target: Table, stopped: nat) {
    && multiset(Loaded(job.rows, job.cols)) <= multiset(target)
    && |target| <= |job.rows| + Pages(stopped, pageSize)
    && (stopped == 0 ==> SameRows(target, Loaded(job.rows, job.cols)))
  }

  /**
   The script, started again until it completes or `tries` starts are used up. Its first start
   completing loads every source row exactly once; after that each further start can only add
   copies, of no more than one page of a table. Tables that are not listed stay as they are.
   */
  method LoadAll(jobs: map<string, Job>, order: seq<string>, pageSize: nat, insertBatch: nat,
                 target: map<string, Table>, tries: nat)
      returns (job: BackfillJob, completed: bool, starts: nat)
    requires pageSize >= 1 && insertBatch >= 1 && (forall t :: t in order ==> t in jobs)
    requires forall t :: t in jobs ==> jobs[t].Ok() && t in target
    ensures starts <= tries && (!completed ==> starts == tries) && job.Shape() && job.jobs == jobs
    ensures forall t :: t in jobs ==> t in job.target
    ensures forall t :: t in jobs && t !in order ==> job.target[t] == target[t]
    ensures completed ==>
              starts >= 1 && forall t :: t in order ==> LoadedAfter(jobs[t], pageSize, job.target[t], starts - 1)
  {
    hide AllOk, AllRan, LoadedAfter, Job.Ok, FewStops, Names;
    job := new BackfillJob(jobs, order, pageSize, insertBatch, target);
    completed, starts := false, 0;
    NoStops(jobs, target, job.stops, Names(order));
    while !completed && starts < tries
      invariant starts <= tries && job.Valid() && fresh(job)
      invariant job.jobs == jobs && job.order == order && job.pageSize == pageSize
      invariant job.finished <= Names(order) && (completed ==> starts >= 1 && Names(order) <= job.finished)
      invariant FewStops(jobs, target, job.target, job.stops, Names(order), if completed then starts - 1 else starts)
      decreases tries - starts
    {
      ghost var target1, stops1 := job.target, job.stops;
      ghost var reached, stopped;
      ghost var lastId1, finished1 := job.lastId, job.finished;
      completed, reached, stopped := job.RunScript();
      FewMoreStops(jobs, pageSize, target, target1, job.target, lastId1, job.lastId, stops1, job.stops,
                   finished1, job.finished, order, reached, stopped, starts);
      starts := starts + 1;
      if completed {
        assert order[..reached] == order;
      }
    }
    FewStopsAt(jobs, target, job.target, job.stops, order, if completed then starts - 1 else starts);
    if completed {
      AllLoaded(jobs, pageSize, job.target, job.lastId, job.stops, job.finished, order, starts - 1);
    }
  }

  /** At most `n` runs stopped in any one table, and unlisted tables are as they were. */
  ghost predicate FewStops(jobs: map<string, Job>, target0: map<string, Table>, target: map<string, Table>,
                           stops: map<string, seq<Stop>>, listed: set<string>, n: nat) {
    forall t :: t in jobs ==>
      && t in target && t in stops && |stops[t]| <= n
      && (t !in listed ==> t in target0 && target[t] == target0[t])
  }

  lemma NoStops(jobs: map<string, Job>, target: map<string, Table>, stops: map<string, seq<Stop>>, listed: set<string>)
    requires forall t :: t in jobs ==> t in target && t in stops && stops[t] == []
    ensures FewStops(jobs, target, target, stops, listed, 0)
  {
  }

  lemma FewStopsAt(jobs: map<string, Job>, target0: map<string, Table>, target: map<string, Table>,
                   stops: map<string, seq<Stop>>, order: seq<string>, n: nat)
    requires FewStops(jobs, target0, target, stops, Names(order), n)
    ensures forall t :: t in jobs ==>
              && t in target && t in stops && |stops[t]| <= n
              && (t !in order ==> t in target0 && target[t] == target0[t])
  {
  }

  lemma FewMoreStops(jobs: map<string, Job>, pageSize: nat, target0: map<string, Table>,
                     target: map<string, Table>, target': map<string, Table>, lastId: map<string, int>,
                     lastId': map<string, int>, stops: map<string, seq<Stop>>, stops': map<string, seq<Stop>>,
                     finished: set<string>, finished': set<string>, order: seq<string>, reached: nat,
                     stopped: set<string>, n: nat)
    requires FewStops(jobs, target0, target, stops, Names(order), n)
    requires AllRan(jobs, pageSize, target, target', lastId, lastId', stops, stops', finished, finished', stopped)
    requires reached <= |order| && finished' <= finished + Names(order[..reached]) && finished <= Names(order)
    requires stopped == {} || (reached < |order| && stopped == {order[reached]})
    ensures FewStops(jobs, target0, target', stops', Names(order), n + 1)
    ensures stopped == {} ==> FewStops(jobs, target0, target', stops', Names(order), n)
    ensures finished' <= Names(order)
  {
    hide RunsTo, Appends;
    forall t | t in Names(order[..reached]) ensures t in order {
    }
    assert stopped <= Names(order);
  }

  lemma AllLoaded(jobs: map<string, Job>, pageSize: nat, target: map<string, Table>, lastId: map<string, int>,
                  stops: map<string, seq<Stop>>, finished: set<string>, order: seq<string>, n: nat)
    requires AllOk(jobs, pageSize, target, lastId, stops, finished) && Names(order) <= finished
    requires forall t :: t in order ==> t in jobs
    requires forall t :: t in jobs ==> t in stops && |stops[t]| <= n
    ensures forall t :: t in order ==> t in target && LoadedAfter(jobs[t], pageSize, target[t], n)
  {
    hide TableOk, LoadedAfter;
    forall t | t in order ensures t in target && LoadedAfter(jobs[t], pageSize, target[t], n) {
      assert t in Names(order);
      LoadedOne(jobs[t], pageSize, Load(target[t], lastId[t]), stops[t], n);
    }
  }

  lemma LoadedOne(job: Job, pageSize: nat, s: Load, stops: seq<Stop>, n: nat)
    requires TableOk(job, pageSize, s, stops, true) && |stops| <= n
    ensures LoadedAfter(job, pageSize, s.target, n)
  {
    hide Loaded, Job.Ok, Extras, Pages;
    ExtrasSize(job, pageSize, stops);
    LoadedSize(job.rows, job.cols);
    assert |multiset(s.target)| == |s.target|;
    MorePages(|stops|, n, pageSize);
    LoadsOnceIffCleanStops(job, pageSize, s, stops);
  }

  lemma {:induction false} ExtrasSize(job: Job, pageSize: nat, stops: seq<Stop>)
    requires StopsOk(job.rows, pageSize, stops)
    ensures |Extras(job.rows, job.cols, stops)| <= Pages(|stops|, pageSize)
  {
    hide *;
    if stops == [] {
      NoExtras(job);
    } else {
      var init, s := stops[..|stops| - 1], stops[|stops| - 1];
      StopsOkInit(job.rows, pageSize, stops);
      ExtrasSize(job, pageSize, init);
      ExtrasMore(job, pageSize, init, s);
      assert init + [s] == stops;
      MorePages(|init|, |stops|, pageSize);
    }
  }

  lemma NoExtras(job: Job)
    ensures Extras(job.rows, job.cols, []) == multiset{}
  {
  }

  lemma StopsOkInit(src: seq<SourceRow>, pageSize: nat, stops: seq<Stop>)
    requires StopsOk(src, pageSize, stops) && stops != []
    ensures StopsOk(src, pageSize, stops[..|stops| - 1])
    ensures StopsOk(src, pageSize, [stops[|stops| - 1]])
  {
  }

  lemma ExtrasMore(job: Job, pageSize: nat, init: seq<Stop>, s: Stop)
    requires StopsOk(job.rows, pageSize, init) && StopsOk(job.rows, pageSize, [s])
    ensures StopsOk(job.rows, pageSize, init + [s])
    ensures |Extras(job.rows, job.cols, init + [s])| <= |Extras(job.rows, job.cols, init)| + pageSize
  {
    hide Loaded, Extras;
    assert [s][0] == s;
    ExtrasSnoc(job.rows, job.cols, init, s);
    LoadedSize(job.rows[s.at..s.at + s.extra], job.cols);
  }

  /** The rows of `n` pages. */
  function Pages(n: nat, size: nat): nat { n * size }

  lemma MorePages(m: nat, n: nat, size: nat)
    requires m <= n
    ensures Pages(m, size) <= Pages(n, size) && Pages(m + 1, size) == Pages(m, size) + size && Pages(0, size) == 0
  {
    assert (n - m) * size >= 0;
  }
}
