/** Process accounting (internal/monitor/process.go): the process table read
    from `ps -eo pid,ppid,%cpu,%mem,args`, and the CPU and memory of a process
    together with all of its descendants. The percentages are floating point
    in the source; here they are integers produced by a caller-supplied
    `metric` parser. */
module Monitor {
  import opened Wrappers
  import opened Strings

  datatype ProcessTableEntry = ProcessTableEntry(pid: string, ppid: string, cpu: int, mem: int, args: string)

  type ProcessTable = map<string, ProcessTableEntry>

  datatype ProcessInfo = ProcessInfo(pid: string, cpu: int, memory: int)

  // ---------------------------------------------------------------------------
  // The process table
  // ---------------------------------------------------------------------------

  /** One row after the header: at least five fields, the command line being
      the fifth field on, joined by single spaces. */
  function ParseRow(line: string, metric: string -> int): (r: Option<ProcessTableEntry>)
    ensures r.Some? <==> |Fields(line)| >= 5
    ensures r.Some? ==> (r.value.pid == Fields(line)[0] && r.value.ppid == Fields(line)[1]
                         && r.value.cpu == metric(Fields(line)[2]) && r.value.mem == metric(Fields(line)[3])
                         && r.value.args == Join(Fields(line)[4..], ' '))
  {
    var f := Fields(line);
    if |f| < 5 then None
    else Some(ProcessTableEntry(f[0], f[1], metric(f[2]), metric(f[3]), Join(f[4..], ' ')))
  }

  /** The rows of the table, each parsed or dropped. */
  function ParseRows(rows: seq<string>, metric: string -> int): (r: seq<Option<ProcessTableEntry>>)
    ensures |r| == |rows| && forall i :: 0 <= i < |rows| ==> r[i] == ParseRow(rows[i], metric)
  {
    seq(|rows|, i requires 0 <= i < |rows| => ParseRow(rows[i], metric))
  }

  predicate Carries(row: Option<ProcessTableEntry>, p: string) {
    row.Some? && row.value.pid == p
  }

  /** Row `i` is the last row carrying PID `p`. */
  ghost predicate LastFor(parsed: seq<Option<ProcessTableEntry>>, i: int, p: string) {
    0 <= i < |parsed| && Carries(parsed[i], p) && forall j :: i < j < |parsed| ==> !Carries(parsed[j], p)
  }

  /** `t` holds, under each PID that some row carries, the entry of the last
      such row, and nothing else. */
  ghost predicate TableOf(parsed: seq<Option<ProcessTableEntry>>, t: ProcessTable) {
    && (forall p :: p in t <==> exists i :: 0 <= i < |parsed| && Carries(parsed[i], p))
    && (forall p :: p in t ==> t[p].pid == p && exists i :: LastFor(parsed, i, p) && parsed[i] == Some(t[p]))
  }

  function TableRows(parsed: seq<Option<ProcessTableEntry>>): (t: ProcessTable)
    ensures TableOf(parsed, t)
    decreases |parsed|
  {
    if |parsed| == 0 then map[]
    else
      var init := parsed[..|parsed| - 1];
      var row := parsed[|parsed| - 1];
      var t := TableRows(init);
      assert init + [row] == parsed;
      match row
      case None => RowSkipped(init, t); t
      case Some(e) => RowFiled(init, e, t); t[e.pid := e]
  }

  /** A dropped row leaves the table as it is. */
  lemma RowSkipped(init: seq<Option<ProcessTableEntry>>, t: ProcessTable)
    requires TableOf(init, t)
    ensures TableOf(init + [None], t)
  {
    var parsed := init + [None];
    assert forall i :: 0 <= i < |init| ==> parsed[i] == init[i];
    forall p | p in t
      ensures exists i :: LastFor(parsed, i, p) && parsed[i] == Some(t[p])
    {
      var i :| LastFor(init, i, p) && init[i] == Some(t[p]);
      assert LastFor(parsed, i, p);
    }
    forall p | exists i :: 0 <= i < |parsed| && Carries(parsed[i], p)
      ensures p in t
    {
      var i :| 0 <= i < |parsed| && Carries(parsed[i], p);
      assert i < |init| && Carries(init[i], p);
    }
    forall p | p in t
      ensures exists i :: 0 <= i < |parsed| && Carries(parsed[i], p)
    {
      var i :| 0 <= i < |init| && Carries(init[i], p);
      assert Carries(parsed[i], p);
    }
  }

  /** A parsed row overwrites the entry of its PID. */
  lemma RowFiled(init: seq<Option<ProcessTableEntry>>, e: ProcessTableEntry, t: ProcessTable)
    requires TableOf(init, t)
    ensures TableOf(init + [Some(e)], t[e.pid := e])
  {
    var parsed := init + [Some(e)];
    var t' := t[e.pid := e];
    assert forall i :: 0 <= i < |init| ==> parsed[i] == init[i];
    assert LastFor(parsed, |init|, e.pid);
    forall p | p in t'
      ensures exists i :: LastFor(parsed, i, p) && parsed[i] == Some(t'[p])
    {
      if p != e.pid {
        var i :| LastFor(init, i, p) && init[i] == Some(t[p]);
        assert LastFor(parsed, i, p);
      }
    }
    forall p | p != e.pid && exists i :: 0 <= i < |parsed| && Carries(parsed[i], p)
      ensures p in t
    {
      var i :| 0 <= i < |parsed| && Carries(parsed[i], p);
      assert i < |init| && Carries(init[i], p);
    }
    forall p | p in t
      ensures exists i :: 0 <= i < |parsed| && Carries(parsed[i], p)
    {
      var i :| 0 <= i < |init| && Carries(init[i], p);
      assert Carries(parsed[i], p);
    }
  }

  /** `GetProcessTable` on the output of ps (`None` when ps fails): the header
      line is skipped, short rows are dropped, and a later row for a PID
      replaces an earlier one. */
  function ParseProcessTable(ps: Option<string>, metric: string -> int): (t: ProcessTable)
    ensures ps.None? ==> t == map[]
    ensures ps.Some? ==> TableOf(ParseRows(Split(ps.value, '\n')[1..], metric), t)
  {
    match ps
    case None => map[]
    case Some(out) => TableRows(ParseRows(Split(out, '\n')[1..], metric))
  }

  // ---------------------------------------------------------------------------
  // Descendants
  // ---------------------------------------------------------------------------

  predicate Distinct<T(==)>(s: seq<T>) {
    forall i, j :: 0 <= i < j < |s| ==> s[i] != s[j]
  }

  /** `table` enumerated as Go's map iteration does: every entry exactly once,
      in an order the model leaves open. */
  method TableEntries(table: ProcessTable) returns (es: seq<ProcessTableEntry>)
    requires forall p :: p in table ==> table[p].pid == p
    ensures forall i :: 0 <= i < |es| ==> es[i].pid in table && es[i] == table[es[i].pid]
    ensures forall p :: p in table ==> exists i :: 0 <= i < |es| && es[i].pid == p
    ensures forall i, j :: 0 <= i < j < |es| ==> es[i].pid != es[j].pid
    ensures |es| == |table|
  {
    var remaining := table.Keys;
    es := [];
    while remaining != {}
      invariant remaining <= table.Keys
      invariant |es| + |remaining| == |table.Keys|
      invariant forall i :: 0 <= i < |es| ==> es[i].pid in table && es[i] == table[es[i].pid]
      invariant forall i :: 0 <= i < |es| ==> es[i].pid !in remaining
      invariant forall i, j :: 0 <= i < j < |es| ==> es[i].pid != es[j].pid
      invariant forall p :: p in table && p !in remaining ==> exists i :: 0 <= i < |es| && es[i].pid == p
      decreases remaining
    {
      var k :| k in remaining;
      ghost var prev := es;
      es := es + [table[k]];
      assert es[|es| - 1].pid == k;
      assert forall i :: 0 <= i < |prev| ==> es[i] == prev[i];
      remaining := remaining - {k};
    }
    assert |table.Keys| == |table|;
  }

  type ChildrenOf = map<string, seq<string>>

  function Kids(co: ChildrenOf, u: string): seq<string> {
    if u in co then co[u] else []
  }

  /** The `childrenOf` index of `GetChildProcessInfo`: each entry's PID filed
      under its parent. */
  function BuildChildrenOf(es: seq<ProcessTableEntry>): (co: ChildrenOf)
    ensures forall u, c :: c in Kids(co, u) <==> exists i :: 0 <= i < |es| && es[i].ppid == u && es[i].pid == c
    decreases |es|
  {
    if |es| == 0 then map[]
    else
      var init := es[..|es| - 1];
      var e := es[|es| - 1];
      var co := BuildChildrenOf(init);
      var co' := co[e.ppid := Kids(co, e.ppid) + [e.pid]];
      assert forall i :: 0 <= i < |init| ==> es[i] == init[i];
      assert forall u, c :: c in Kids(co', u) <==> c in Kids(co, u) || (u == e.ppid && c == e.pid);
      co'
  }

  /** A chain of parent links: each PID after the first is in the table with
      the previous PID as its parent. */
  ghost predicate IsChain(table: ProcessTable, p: seq<string>) {
    |p| >= 1 && forall i :: 1 <= i < |p| ==> p[i] in table && table[p[i]].ppid == p[i - 1]
  }

  /** `v` is `root` or a descendant of it. */
  ghost predicate Descends(table: ProcessTable, root: string, v: string) {
    exists p :: IsChain(table, p) && p[0] == root && p[|p| - 1] == v
  }

  lemma DescendsRoot(table: ProcessTable, root: string)
    ensures Descends(table, root, root)
  {
    assert IsChain(table, [root]);
  }

  lemma DescendsStep(table: ProcessTable, root: string, u: string, c: string)
    requires Descends(table, root, u)
    requires c in table && table[c].ppid == u
    ensures Descends(table, root, c)
  {
    var p :| IsChain(table, p) && p[0] == root && p[|p| - 1] == u;
    var p' := p + [c];
    assert IsChain(table, p') by {
      forall i | 1 <= i < |p'| ensures p'[i] in table && table[p'[i]].ppid == p'[i - 1] {
        if i < |p| {
          assert p'[i] == p[i] && p'[i - 1] == p[i - 1];
        }
      }
    }
  }

  lemma {:induction false} ClosedHoldsChain(table: ProcessTable, root: string, s: set<string>, p: seq<string>)
    requires root in s
    requires forall v, c :: v in s && c in table && table[c].ppid == v ==> c in s
    requires IsChain(table, p) && p[0] == root
    ensures p[|p| - 1] in s
    decreases |p|
  {
    if |p| > 1 {
      var q := p[..|p| - 1];
      assert IsChain(table, q) by {
        forall i | 1 <= i < |q| ensures q[i] in table && table[q[i]].ppid == q[i - 1] {
          assert q[i] == p[i] && q[i - 1] == p[i - 1];
        }
      }
      ClosedHoldsChain(table, root, s, q);
      assert p[|p| - 2] == q[|q| - 1];
      assert p[|p| - 1] in table && table[p[|p| - 1]].ppid == p[|p| - 2];
    }
  }

  /** What `p` contributes: its table entry's figures, or nothing. */
  function SumCpu(order: seq<string>, table: ProcessTable): int
    decreases |order|
  {
    if |order| == 0 then 0
    else
      var last := order[|order| - 1];
      SumCpu(order[..|order| - 1], table) + (if last in table then table[last].cpu else 0)
  }

  function SumMem(order: seq<string>, table: ProcessTable): int
    decreases |order|
  {
    if |order| == 0 then 0
    else
      var last := order[|order| - 1];
      SumMem(order[..|order| - 1], table) + (if last in table then table[last].mem else 0)
  }

  /** `co` lists under each PID exactly the table's children of it. */
  ghost predicate KidsExact(co: ChildrenOf, table: ProcessTable) {
    forall u, c :: c in Kids(co, u) <==> c in table && table[c].ppid == u
  }

  /** Indexing the entries of the whole table files every process under its parent. */
  lemma ChildrenOfTable(table: ProcessTable, es: seq<ProcessTableEntry>)
    requires forall i :: 0 <= i < |es| ==> es[i].pid in table && es[i] == table[es[i].pid]
    requires forall p :: p in table ==> exists i :: 0 <= i < |es| && es[i].pid == p
    ensures KidsExact(BuildChildrenOf(es), table)
  {
    var co := BuildChildrenOf(es);
    forall u, c ensures c in Kids(co, u) <==> c in table && table[c].ppid == u {
      if c in table && table[c].ppid == u {
        var i :| 0 <= i < |es| && es[i].pid == c;
      }
    }
  }

  /** Queued PIDs are descendants of `root`. */
  ghost predicate QueueOk(table: ProcessTable, root: string, nodes: set<string>, queue: seq<string>) {
    forall q :: q in queue ==> q in nodes && Descends(table, root, q)
  }

  /** Every child of a visited PID is visited or queued. */
  ghost predicate Closed(table: ProcessTable, visited: set<string>, queue: seq<string>) {
    forall v, c :: v in visited && c in table && table[c].ppid == v ==> c in visited || c in queue
  }

  /** `order` lists the visited PIDs once each. */
  ghost predicate Records(order: seq<string>, visited: set<string>) {
    (forall v :: v in order <==> v in visited) && Distinct(order)
  }

  /** The search state: queued and visited PIDs are descendants of `root`;
      every child of a visited PID is visited or queued; `order` lists the
      visited PIDs once each, and the totals are summed over it. */
  ghost predicate SearchState(table: ProcessTable, root: string, nodes: set<string>, queue: seq<string>,
                              visited: set<string>, order: seq<string>, cpu: int, mem: int) {
    && visited <= nodes
    && QueueOk(table, root, nodes, queue)
    && (forall v :: v in visited ==> Descends(table, root, v))
    && (root in visited || root in queue)
    && Closed(table, visited, queue)
    && Records(order, visited)
    && cpu == SumCpu(order, table) && mem == SumMem(order, table)
  }

  /** A queued PID that was already visited is dropped. */
  lemma VisitSkip(table: ProcessTable, root: string, nodes: set<string>, queue: seq<string>,
                  visited: set<string>, order: seq<string>, cpu: int, mem: int)
    requires |queue| > 0 && queue[0] in visited
    requires SearchState(table, root, nodes, queue, visited, order, cpu, mem)
    ensures SearchState(table, root, nodes, queue[1..], visited, order, cpu, mem)
  {
    assert forall x :: x in queue ==> x == queue[0] || x in queue[1..];
  }

  lemma QueueAfterVisit(table: ProcessTable, co: ChildrenOf, root: string, nodes: set<string>, queue: seq<string>)
    requires KidsExact(co, table)
    requires nodes == {root} + table.Keys
    requires |queue| > 0 && QueueOk(table, root, nodes, queue)
    ensures QueueOk(table, root, nodes, queue[1..] + Kids(co, queue[0]))
  {
    var v := queue[0];
    assert Descends(table, root, v);
    forall c | c in Kids(co, v) ensures c in nodes && Descends(table, root, c) {
      DescendsStep(table, root, v, c);
    }
  }

  lemma ClosedAfterVisit(table: ProcessTable, co: ChildrenOf, visited: set<string>, queue: seq<string>)
    requires KidsExact(co, table)
    requires |queue| > 0 && Closed(table, visited, queue)
    ensures Closed(table, visited + {queue[0]}, queue[1..] + Kids(co, queue[0]))
  {
    var v := queue[0];
    var queue' := queue[1..] + Kids(co, v);
    assert forall x :: x in queue ==> x == v || x in queue';
  }

  lemma RecordsAfterVisit(order: seq<string>, visited: set<string>, v: string)
    requires Records(order, visited) && v !in visited
    ensures Records(order + [v], visited + {v})
  {
    var order' := order + [v];
    assert order'[..|order|] == order;
    assert forall x :: x in order' <==> x in order || x == v;
  }

  /** Visiting a new PID records it, adds its figures and queues its children. */
  lemma VisitNew(table: ProcessTable, co: ChildrenOf, root: string, nodes: set<string>, queue: seq<string>,
                 visited: set<string>, order: seq<string>, cpu: int, mem: int)
    requires KidsExact(co, table)
    requires nodes == {root} + table.Keys
    requires |queue| > 0 && queue[0] !in visited
    requires SearchState(table, root, nodes, queue, visited, order, cpu, mem)
    ensures SearchState(table, root, nodes, queue[1..] + Kids(co, queue[0]), visited + {queue[0]}, order + [queue[0]],
                        cpu + (if queue[0] in table then table[queue[0]].cpu else 0),
                        mem + (if queue[0] in table then table[queue[0]].mem else 0))
  {
    var v := queue[0];
    QueueAfterVisit(table, co, root, nodes, queue);
    ClosedAfterVisit(table, co, visited, queue);
    RecordsAfterVisit(order, visited, v);
    assert (order + [v])[..|order|] == order;
  }

  /** `GetChildProcessInfo`: the figures of `pid` and of every descendant, each
      counted once. `visitOrder` lists the PIDs the search expanded; a PID
      reached but missing from the table adds nothing. */
  method GetChildProcessInfo(pid: string, table: ProcessTable) returns (info: ProcessInfo, visitOrder: seq<string>)
    requires forall p :: p in table ==> table[p].pid == p
    ensures info.pid == pid
    ensures pid == "" ==> info.cpu == 0 && info.memory == 0 && visitOrder == []
    ensures pid != "" ==> forall v :: v in visitOrder <==> Descends(table, pid, v)
    ensures Distinct(visitOrder)
    ensures info.cpu == SumCpu(visitOrder, table) && info.memory == SumMem(visitOrder, table)
  {
    if pid == "" {
      return ProcessInfo(pid, 0, 0), [];
    }
    var es := TableEntries(table);
    var co := BuildChildrenOf(es);
    ChildrenOfTable(table, es);
    ghost var nodes := {pid} + table.Keys;
    var queue := [pid];
    var visited: set<string> := {};
    var cpu, mem := 0, 0;
    visitOrder := [];
    DescendsRoot(table, pid);
    while |queue| > 0
      invariant SearchState(table, pid, nodes, queue, visited, visitOrder, cpu, mem)
      decreases nodes - visited, |queue|
    {
      var current := queue[0];
      if current in visited {
        VisitSkip(table, pid, nodes, queue, visited, visitOrder, cpu, mem);
      } else {
        VisitNew(table, co, pid, nodes, queue, visited, visitOrder, cpu, mem);
      }
      queue := queue[1..];
      if current !in visited {
        visited := visited + {current};
        visitOrder := visitOrder + [current];
        if current in table {
          cpu := cpu + table[current].cpu;
          mem := mem + table[current].mem;
        }
        queue := queue + Kids(co, current);
      }
    }
    forall v | Descends(table, pid, v) ensures v in visited {
      var p :| IsChain(table, p) && p[0] == pid && p[|p| - 1] == v;
      ClosedHoldsChain(table, pid, visited, p);
    }
    return ProcessInfo(pid, cpu, mem), visitOrder;
  }
}
