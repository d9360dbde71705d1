/**
 * Walk: board_bfs, the FIFO walk over the segments of one feature.
 *
 * The walk is modelled step for step: a queue of (x, y, pos) entries, visited marks on
 * (x, y, id) set when an entry is dequeued (so one mark can be dequeued twice), and for each
 * of the four sides only the first edge slot that carries the current id decides what
 * happens there. The callback is replaced by the trace of its invocations; every callback
 * of the source only touches meeples or its own accumulators, never ids or types, so running
 * the callbacks over the trace afterwards gives the same result.
 */
module Walk {
  import opened Wrappers
  import opened Tiles
  import opened Board

  /** A queued segment: a cell and a segment position on its tile (one slot of QX/QY/QP). */
  datatype Entry = Entry(x: int, y: int, pos: Pos)

  /** A visited mark: a cell and a tile-local id (one bit of vis[y][x]). */
  type Triple = (int, int, nat)

  /** One callback invocation cb(x, y, pos, revisit). */
  datatype Visit = Visit(x: int, y: int, pos: Pos, revisit: bool)

  /** The callback trace, the marks set during the walk and the returned "completed" flag. */
  datatype WalkResult = WalkResult(trace: seq<Visit>, visited: set<Triple>, closed: bool)

  predicate OnBoard(b: Board, e: Entry)
  {
    (e.x, e.y) in b.grid
  }

  predicate AllOnBoard(b: Board, q: seq<Entry>)
  {
    forall e | e in q :: OnBoard(b, e)
  }

  function TripleOf(b: Board, e: Entry): Triple
    requires OnBoard(b, e)
  {
    (e.x, e.y, b.grid[(e.x, e.y)].ids[e.pos])
  }

  /** The mark an invocation of the callback stands for. */
  function VisitTriple(b: Board, v: Visit): Triple
    requires (v.x, v.y) in b.grid
  {
    (v.x, v.y, b.grid[(v.x, v.y)].ids[v.pos])
  }

  /** What one side of the dequeued segment yields. */
  datatype SideOutcome =
    | Open              // an edge slot carrying the id faces an empty cell: the feature is not closed
    | Join(to: Entry)   // the facing slot has the same type: it is the next segment of the feature
    | Nothing

  /**
   * BOARD_BFS_HELPER from slot i on: the slot AI+2-i of the current tile faces the slot BI+i
   * of the neighbour at (nx, ny). Slots not carrying the id and same-id slots whose facing
   * slot has another type are skipped.
   */
  function SideScan(b: Board, t: Tile, nx: int, ny: int, id: nat, ai: nat, bi: nat, i: nat): (o: SideOutcome)
    requires ai + 2 < 13 && bi + 2 < 13 && i <= 3
    ensures o.Join? ==> OnBoard(b, o.to) && o.to.x == nx && o.to.y == ny
    decreases 3 - i
  {
    if i == 3 then Nothing
    else if t.ids[ai + 2 - i] != id then SideScan(b, t, nx, ny, id, ai, bi, i + 1)
    else if (nx, ny) !in b.grid then Open
    else if t.types[ai + 2 - i] == b.grid[(nx, ny)].types[bi + i] then Join(Entry(nx, ny, bi + i))
    else SideScan(b, t, nx, ny, id, ai, bi, i + 1)
  }

  /** The four sides in the order of the source: up, down, left, right. */
  function Outcomes(b: Board, t: Tile, x: int, y: int, id: nat): (os: seq<SideOutcome>)
    ensures |os| == 4
    ensures forall o | o in os :: o.Join? ==> OnBoard(b, o.to)
  {
    [SideScan(b, t, x, y - 1, id, 0, 6, 0),
     SideScan(b, t, x, y + 1, id, 6, 0, 0),
     SideScan(b, t, x - 1, y, id, 9, 3, 0),
     SideScan(b, t, x + 1, y, id, 3, 9, 0)]
  }

  /** The joined segments that are not marked yet, in side order. */
  function Enqueue(b: Board, os: seq<SideOutcome>, vis: set<Triple>): (q: seq<Entry>)
    requires forall o | o in os :: o.Join? ==> OnBoard(b, o.to)
    ensures |q| <= |os|
    ensures AllOnBoard(b, q)
    ensures forall e | e in q :: TripleOf(b, e) !in vis && Join(e) in os
    ensures forall o | o in os :: o.Join? && TripleOf(b, o.to) !in vis ==> o.to in q
  {
    if |os| == 0 then []
    else
      var rest := Enqueue(b, os[1..], vis);
      if os[0].Join? && TripleOf(b, os[0].to) !in vis then [os[0].to] + rest else rest
  }

  /** vis[y][x] != 0: some segment of this cell has been dequeued already. */
  predicate CellMarked(vis: set<Triple>, x: int, y: int)
  {
    exists tr | tr in vis :: tr.0 == x && tr.1 == y
  }

  /** Every mark of a tile on the board. */
  ghost function Universe(b: Board): set<Triple>
  {
    set c, i | c in b.grid.Keys && 0 <= i < 13 :: (c.0, c.1, b.grid[c].ids[i])
  }

  datatype StepResult = StepResult(queue: seq<Entry>, vis: set<Triple>, visit: Visit, open: bool)

  /** One iteration of the main loop: dequeue, call back, mark, expand the four sides. */
  function Step(b: Board, q: seq<Entry>, vis: set<Triple>): (s: StepResult)
    requires |q| > 0 && AllOnBoard(b, q)
    ensures AllOnBoard(b, s.queue)
  {
    var h := q[0];
    assert h in q;
    var t := b.grid[(h.x, h.y)];
    var id := t.ids[h.pos];
    var vis' := vis + {(h.x, h.y, id)};
    var os := Outcomes(b, t, h.x, h.y, id);
    StepResult(q[1..] + Enqueue(b, os, vis'), vis', Visit(h.x, h.y, h.pos, CellMarked(vis, h.x, h.y)), Open in os)
  }

  // ---- termination ------------------------------------------------------------------------

  ghost function Pow5(k: nat): (p: nat)
    ensures p >= 1
  {
    if k == 0 then 1 else 5 * Pow5(k - 1)
  }

  lemma Pow5Mono(a: nat, c: nat)
    requires a <= c
    ensures Pow5(a) <= Pow5(c)
    decreases c - a
  {
    if a < c {
      Pow5Mono(a + 1, c);
    }
  }

  /**
   * An entry whose mark is still unset weighs 5^(2n), one whose mark is already set (it will
   * be a repeated dequeue) weighs 5^(2n+1), where n is the number of unset marks.
   */
  ghost function Weight(b: Board, e: Entry, vis: set<Triple>, n: nat): nat
    requires OnBoard(b, e)
  {
    if TripleOf(b, e) in vis then Pow5(2 * n + 1) else Pow5(2 * n)
  }

  ghost function Load(b: Board, q: seq<Entry>, vis: set<Triple>, n: nat): nat
    requires AllOnBoard(b, q)
    decreases |q|
  {
    if |q| == 0 then 0 else Weight(b, q[0], vis, n) + Load(b, q[1..], vis, n)
  }

  ghost function Potential(b: Board, q: seq<Entry>, vis: set<Triple>): nat
    requires AllOnBoard(b, q)
  {
    Load(b, q, vis, |Universe(b) - vis|)
  }

  lemma {:induction false} LoadAppend(b: Board, q1: seq<Entry>, q2: seq<Entry>, vis: set<Triple>, n: nat)
    requires AllOnBoard(b, q1) && AllOnBoard(b, q2)
    ensures AllOnBoard(b, q1 + q2)
    ensures Load(b, q1 + q2, vis, n) == Load(b, q1, vis, n) + Load(b, q2, vis, n)
    decreases |q1|
  {
    if |q1| == 0 {
      assert q1 + q2 == q2;
    } else {
      assert (q1 + q2)[1..] == q1[1..] + q2;
      LoadAppend(b, q1[1..], q2, vis, n);
    }
  }

  lemma {:induction false} LoadFresh(b: Board, q: seq<Entry>, vis: set<Triple>, n: nat)
    requires AllOnBoard(b, q)
    requires forall e | e in q :: TripleOf(b, e) !in vis
    ensures Load(b, q, vis, n) == |q| * Pow5(2 * n)
    decreases |q|
  {
    if |q| > 0 {
      LoadFresh(b, q[1..], vis, n);
    }
  }

  lemma {:induction false} LoadShrinks(b: Board, q: seq<Entry>, vis: set<Triple>, n: nat, vis2: set<Triple>, n2: nat)
    requires AllOnBoard(b, q) && n2 < n
    ensures Load(b, q, vis2, n2) <= Load(b, q, vis, n)
    decreases |q|
  {
    if |q| > 0 {
      Pow5Mono(2 * n2 + 1, 2 * n);
      LoadShrinks(b, q[1..], vis, n, vis2, n2);
    }
  }

  lemma StepStaysInUniverse(b: Board, q: seq<Entry>, vis: set<Triple>)
    requires |q| > 0 && AllOnBoard(b, q) && vis <= Universe(b)
    ensures TripleOf(b, q[0]) in Universe(b)
    ensures Step(b, q, vis).vis <= Universe(b)
  {
    var h := q[0];
    assert OnBoard(b, h);
    var c := (h.x, h.y);
    assert c in b.grid.Keys;
    assert (c.0, c.1, b.grid[c].ids[h.pos]) in Universe(b);
  }

  lemma DeadPopArith(k: nat, p: nat, l: nat)
    requires k <= 4 && p >= 1
    ensures l + k * p < 5 * p + l
  {
  }

  lemma LivePopArith(k: nat, p: nat, l: nat, l': nat)
    requires k <= 4 && p >= 1 && l' <= l
    ensures l' + k * p < 25 * p + l
  {
  }

  /** The shape of one step: the head is dropped, its mark is set and fresh joined segments are appended. */
  lemma StepShape(b: Board, q: seq<Entry>, vis: set<Triple>) returns (news: seq<Entry>)
    requires |q| > 0 && AllOnBoard(b, q)
    ensures OnBoard(b, q[0])
    ensures Step(b, q, vis).vis == vis + {TripleOf(b, q[0])}
    ensures Step(b, q, vis).queue == q[1..] + news
    ensures |news| <= 4 && AllOnBoard(b, news)
    ensures forall e | e in news :: TripleOf(b, e) !in Step(b, q, vis).vis
  {
    var h := q[0];
    assert h in q;
    var tr := TripleOf(b, h);
    var os := Outcomes(b, b.grid[(h.x, h.y)], h.x, h.y, tr.2);
    news := Enqueue(b, os, vis + {tr});
  }

  /** Dropping the head, setting its mark and appending at most four unmarked entries lowers the potential. */
  lemma PopDecreases(b: Board, q: seq<Entry>, vis: set<Triple>, vis': set<Triple>, news: seq<Entry>)
    requires |q| > 0 && AllOnBoard(b, q) && vis <= Universe(b)
    requires OnBoard(b, q[0]) && TripleOf(b, q[0]) in Universe(b) && vis' == vis + {TripleOf(b, q[0])}
    requires |news| <= 4 && AllOnBoard(b, news) && forall e | e in news :: TripleOf(b, e) !in vis'
    ensures AllOnBoard(b, q[1..] + news)
    ensures Potential(b, q[1..] + news, vis') < Potential(b, q, vis)
  {
    var h := q[0];
    var tr := TripleOf(b, h);
    var n := |Universe(b) - vis|;
    var n' := |Universe(b) - vis'|;
    var rest, rest' := Load(b, q[1..], vis, n), Load(b, q[1..], vis', n');
    LoadAppend(b, q[1..], news, vis', n');
    LoadFresh(b, news, vis', n');
    assert Potential(b, q[1..] + news, vis') == rest' + |news| * Pow5(2 * n');
    assert Potential(b, q, vis) == Weight(b, h, vis, n) + rest;
    if tr in vis {
      assert vis' == vis && n' == n && rest' == rest;
      assert Weight(b, h, vis, n) == 5 * Pow5(2 * n);
      DeadPopArith(|news|, Pow5(2 * n), rest);
    } else {
      assert Universe(b) - vis' == (Universe(b) - vis) - {tr};
      assert n' == n - 1;
      LoadShrinks(b, q[1..], vis, n, vis', n');
      assert Pow5(2 * n' + 1) == 5 * Pow5(2 * n');
      assert Pow5(2 * n) == 5 * Pow5(2 * n' + 1);
      assert Weight(b, h, vis, n) == 25 * Pow5(2 * n');
      LivePopArith(|news|, Pow5(2 * n'), rest, rest');
    }
  }

  /** Each step lowers the potential, so the walk ends. */
  lemma StepDecreases(b: Board, q: seq<Entry>, vis: set<Triple>)
    requires |q| > 0 && AllOnBoard(b, q) && vis <= Universe(b)
    ensures Step(b, q, vis).vis <= Universe(b)
    ensures Potential(b, Step(b, q, vis).queue, Step(b, q, vis).vis) < Potential(b, q, vis)
  {
    StepStaysInUniverse(b, q, vis);
    var news := StepShape(b, q, vis);
    PopDecreases(b, q, vis, Step(b, q, vis).vis, news);
  }

  // ---- the walk ---------------------------------------------------------------------------

  /** The main loop of board_bfs, from the given queue, marks, trace so far and flag. */
  function Run(b: Board, q: seq<Entry>, vis: set<Triple>, trace: seq<Visit>, closed: bool): WalkResult
    requires AllOnBoard(b, q) && vis <= Universe(b)
    decreases Potential(b, q, vis)
  {
    if |q| == 0 then WalkResult(trace, vis, closed)
    else
      var s := Step(b, q, vis);
      StepDecreases(b, q, vis);
      Run(b, s.queue, s.vis, trace + [s.visit], closed && !s.open)
  }

  // ---- what the walk computes -------------------------------------------------------------

  predicate TraceOnBoard(b: Board, trace: seq<Visit>)
  {
    forall k :: 0 <= k < |trace| ==> (trace[k].x, trace[k].y) in b.grid
  }

  /** The marks the callbacks of a trace stand for. */
  ghost function TraceTriples(b: Board, trace: seq<Visit>): set<Triple>
    requires TraceOnBoard(b, trace)
  {
    set k | 0 <= k < |trace| :: VisitTriple(b, trace[k])
  }

  /** A trace on one board lies on any board of the same shape. */
  lemma TraceOnShape(b1: Board, b2: Board, trace: seq<Visit>)
    requires SameShape(b1, b2) && TraceOnBoard(b1, trace)
    ensures TraceOnBoard(b2, trace)
  {
  }

  lemma TraceTriplesCons(b: Board, trace: seq<Visit>)
    requires |trace| > 0 && TraceOnBoard(b, trace)
    ensures TraceOnBoard(b, trace[1..])
    ensures TraceTriples(b, trace) == {VisitTriple(b, trace[0])} + TraceTriples(b, trace[1..])
  {
    assert forall k | 1 <= k < |trace| :: trace[k] == trace[1..][k - 1];
    forall tr | tr in TraceTriples(b, trace[1..]) ensures tr in TraceTriples(b, trace) {
      var k :| 0 <= k < |trace[1..]| && VisitTriple(b, trace[1..][k]) == tr;
      assert trace[1..][k] == trace[k + 1];
    }
  }

  lemma TraceTriplesSnoc(b: Board, trace: seq<Visit>, v: Visit)
    requires TraceOnBoard(b, trace) && (v.x, v.y) in b.grid
    ensures TraceOnBoard(b, trace + [v])
    ensures TraceTriples(b, trace + [v]) == TraceTriples(b, trace) + {VisitTriple(b, v)}
  {
    var t' := trace + [v];
    assert t'[|trace|] == v;
    forall k | 0 <= k < |trace| ensures t'[k] == trace[k] {
    }
  }

  /** The cells of the tiles a trace passes over. */
  ghost function TraceCells(trace: seq<Visit>): set<Cell>
  {
    set k | 0 <= k < |trace| :: (trace[k].x, trace[k].y)
  }

  /** The cells of the tiles carrying some of the given marks. */
  ghost function MarkCells(vis: set<Triple>): set<Cell>
  {
    set tr | tr in vis :: (tr.0, tr.1)
  }

  lemma TraceCellsAreMarkCells(b: Board, trace: seq<Visit>)
    requires TraceOnBoard(b, trace)
    ensures TraceCells(trace) == MarkCells(TraceTriples(b, trace))
  {
    forall c | c in MarkCells(TraceTriples(b, trace)) ensures c in TraceCells(trace) {
      var tr :| tr in TraceTriples(b, trace) && c == (tr.0, tr.1);
      var k :| 0 <= k < |trace| && VisitTriple(b, trace[k]) == tr;
    }
    forall c | c in TraceCells(trace) ensures c in MarkCells(TraceTriples(b, trace)) {
      var k :| 0 <= k < |trace| && c == (trace[k].x, trace[k].y);
      assert VisitTriple(b, trace[k]) in TraceTriples(b, trace);
    }
  }

  /** The revisit flag of each callback says whether its cell appeared earlier in the trace. */
  ghost predicate RevisitFlags(trace: seq<Visit>)
  {
    forall k :: 0 <= k < |trace| ==>
      (trace[k].revisit <==> exists j :: 0 <= j < k && trace[j].x == trace[k].x && trace[j].y == trace[k].y)
  }

  lemma RevisitFlagsPrefix(trace: seq<Visit>, n: nat)
    requires RevisitFlags(trace) && n <= |trace|
    ensures RevisitFlags(trace[..n])
  {
    var p := trace[..n];
    forall k | 0 <= k < n
      ensures p[k].revisit <==> exists j :: 0 <= j < k && p[j].x == p[k].x && p[j].y == p[k].y
    {
      if p[k].revisit {
        var j :| 0 <= j < k && trace[j].x == trace[k].x && trace[j].y == trace[k].y;
        assert p[j] == trace[j];
      }
    }
  }

  /** Every cell a trace passes over has a first callback, and that one is not a revisit. */
  lemma {:induction false} FirstOccurrence(trace: seq<Visit>, k: nat) returns (k0: nat)
    requires RevisitFlags(trace) && k < |trace|
    ensures k0 <= k && trace[k0].x == trace[k].x && trace[k0].y == trace[k].y && !trace[k0].revisit
    decreases k
  {
    if trace[k].revisit {
      var j :| 0 <= j < k && trace[j].x == trace[k].x && trace[j].y == trace[k].y;
      k0 := FirstOccurrence(trace, j);
    } else {
      k0 := k;
    }
  }

  /** Some id-carrying edge slot of the segment with this mark faces an empty cell. */
  predicate OpenAt(b: Board, tr: Triple)
    requires (tr.0, tr.1) in b.grid
  {
    Open in Outcomes(b, b.grid[(tr.0, tr.1)], tr.0, tr.1, tr.2)
  }

  /** The marks of the segments the walk joins from the segment with this mark. */
  ghost function Succ(b: Board, tr: Triple): set<Triple>
    requires (tr.0, tr.1) in b.grid
  {
    var os := Outcomes(b, b.grid[(tr.0, tr.1)], tr.0, tr.1, tr.2);
    set o | o in os && o.Join? :: TripleOf(b, o.to)
  }

  /** A set of marks on occupied cells that contains every mark the walk can join from it. */
  ghost predicate SuccClosed(b: Board, c: set<Triple>)
  {
    forall tr | tr in c :: (tr.0, tr.1) in b.grid && Succ(b, tr) <= c
  }

  ghost function QueueTriples(b: Board, q: seq<Entry>): set<Triple>
    requires AllOnBoard(b, q)
  {
    set e | e in q :: TripleOf(b, e)
  }

  /** Appending one callback whose revisit flag is vis[y][x] != 0 keeps the trace facts. */
  lemma TraceExtend(b: Board, trace: seq<Visit>, vis: set<Triple>, v: Visit)
    requires TraceOnBoard(b, trace) && vis == TraceTriples(b, trace) && RevisitFlags(trace)
    requires (v.x, v.y) in b.grid && v.revisit == CellMarked(vis, v.x, v.y)
    ensures TraceOnBoard(b, trace + [v])
    ensures TraceTriples(b, trace + [v]) == vis + {VisitTriple(b, v)}
    ensures RevisitFlags(trace + [v])
  {
    var trace' := trace + [v];
    var k := |trace|;
    assert trace'[k] == v;
    forall i | 0 <= i < k ensures trace'[i] == trace[i] {
    }
    assert TraceOnBoard(b, trace');
    assert TraceTriples(b, trace') == vis + {VisitTriple(b, v)} by {
      forall i | 0 <= i < k ensures VisitTriple(b, trace'[i]) == VisitTriple(b, trace[i]) {
      }
    }
    if v.revisit {
      var tr :| tr in vis && tr.0 == v.x && tr.1 == v.y;
      var j :| 0 <= j < |trace| && VisitTriple(b, trace[j]) == tr;
      assert trace'[j] == trace[j];
    }
    forall j | 0 <= j < k && trace'[j].x == v.x && trace'[j].y == v.y
      ensures v.revisit
    {
      assert VisitTriple(b, trace[j]) in vis;
    }
  }

  lemma {:induction false} RunPrefix(b: Board, q: seq<Entry>, vis: set<Triple>, trace: seq<Visit>, closed: bool)
    requires AllOnBoard(b, q) && vis <= Universe(b)
    ensures var r := Run(b, q, vis, trace, closed);
      |r.trace| >= |trace| && r.trace[..|trace|] == trace && (|q| > 0 ==> |r.trace| > |trace|)
    decreases Potential(b, q, vis)
  {
    if |q| > 0 {
      var s := Step(b, q, vis);
      StepDecreases(b, q, vis);
      var trace' := trace + [s.visit];
      RunPrefix(b, s.queue, s.vis, trace', closed && !s.open);
      var r := Run(b, s.queue, s.vis, trace', closed && !s.open);
      assert Run(b, q, vis, trace, closed) == r;
      PrefixOfSnoc(r.trace, trace, s.visit);
    }
  }

  lemma PrefixOfSnoc<T>(s: seq<T>, p: seq<T>, x: T)
    requires |s| >= |p| + 1 && s[..|p| + 1] == p + [x]
    ensures s[..|p|] == p
  {
    assert s[..|p|] == s[..|p| + 1][..|p|];
  }

  lemma {:induction false} RunTrace(b: Board, q: seq<Entry>, vis: set<Triple>, trace: seq<Visit>, closed: bool)
    requires AllOnBoard(b, q) && vis <= Universe(b)
    requires TraceOnBoard(b, trace) && vis == TraceTriples(b, trace) && RevisitFlags(trace)
    ensures var r := Run(b, q, vis, trace, closed);
      TraceOnBoard(b, r.trace) && r.visited == TraceTriples(b, r.trace) && RevisitFlags(r.trace)
    decreases Potential(b, q, vis)
  {
    if |q| > 0 {
      var s := Step(b, q, vis);
      StepDecreases(b, q, vis);
      var trace' := trace + [s.visit];
      var _ := StepShape(b, q, vis);
      TraceExtend(b, trace, vis, s.visit);
      RunTrace(b, s.queue, s.vis, trace', closed && !s.open);
    }
  }

  lemma {:induction false} RunClosed(b: Board, q: seq<Entry>, vis: set<Triple>, trace: seq<Visit>, closed: bool)
    requires AllOnBoard(b, q) && vis <= Universe(b)
    requires closed <==> forall tr | tr in vis :: !OpenAt(b, tr)
    ensures var r := Run(b, q, vis, trace, closed);
      r.visited <= Universe(b) && (r.closed <==> forall tr | tr in r.visited :: !OpenAt(b, tr))
    decreases Potential(b, q, vis)
  {
    if |q| > 0 {
      var s := Step(b, q, vis);
      StepDecreases(b, q, vis);
      var h := q[0];
      var tr0 := TripleOf(b, h);
      assert s.open == OpenAt(b, tr0);
      assert s.vis == vis + {tr0};
      RunClosed(b, s.queue, s.vis, trace + [s.visit], closed && !s.open);
    }
  }

  lemma {:induction false} RunClosure(b: Board, q: seq<Entry>, vis: set<Triple>, trace: seq<Visit>, closed: bool)
    requires AllOnBoard(b, q) && vis <= Universe(b)
    requires forall tr | tr in vis :: (tr.0, tr.1) in b.grid && Succ(b, tr) <= vis + QueueTriples(b, q)
    ensures SuccClosed(b, Run(b, q, vis, trace, closed).visited)
    decreases Potential(b, q, vis)
  {
    if |q| == 0 {
      assert QueueTriples(b, q) == {};
    } else {
      var s := Step(b, q, vis);
      StepDecreases(b, q, vis);
      var h := q[0];
      var tr0 := TripleOf(b, h);
      var os := Outcomes(b, b.grid[(h.x, h.y)], h.x, h.y, tr0.2);
      var news := Enqueue(b, os, s.vis);
      assert s.queue == q[1..] + news;
      assert QueueTriples(b, q) <= {tr0} + QueueTriples(b, s.queue) by {
        forall e | e in q ensures TripleOf(b, e) in {tr0} + QueueTriples(b, s.queue) {
          if e != h {
            var i :| 0 <= i < |q| && q[i] == e;
            assert i > 0;
            assert e in q[1..];
            assert e in s.queue;
          }
        }
      }
      forall tr | tr in s.vis
        ensures (tr.0, tr.1) in b.grid && Succ(b, tr) <= s.vis + QueueTriples(b, s.queue)
      {
        if tr == tr0 {
          assert (tr.0, tr.1) in b.grid;
          forall u | u in Succ(b, tr) ensures u in s.vis + QueueTriples(b, s.queue) {
            var o :| o in os && o.Join? && TripleOf(b, o.to) == u;
            if u !in s.vis {
              assert o.to in news;
              assert o.to in s.queue;
            }
          }
        }
      }
      RunClosure(b, s.queue, s.vis, trace + [s.visit], closed && !s.open);
    }
  }

  lemma {:induction false} RunWithin(b: Board, q: seq<Entry>, vis: set<Triple>, trace: seq<Visit>, closed: bool, c: set<Triple>)
    requires AllOnBoard(b, q) && vis <= Universe(b)
    requires SuccClosed(b, c) && vis <= c && QueueTriples(b, q) <= c
    ensures Run(b, q, vis, trace, closed).visited <= c
    decreases Potential(b, q, vis)
  {
    if |q| > 0 {
      var s := Step(b, q, vis);
      StepDecreases(b, q, vis);
      var h := q[0];
      var tr0 := TripleOf(b, h);
      assert tr0 in QueueTriples(b, q);
      var os := Outcomes(b, b.grid[(h.x, h.y)], h.x, h.y, tr0.2);
      var news := Enqueue(b, os, s.vis);
      assert s.queue == q[1..] + news;
      forall e | e in s.queue ensures TripleOf(b, e) in c {
        if e in q[1..] {
          assert e in q;
        } else {
          assert e in news;
          assert Join(e) in os;
          assert TripleOf(b, e) in Succ(b, tr0);
        }
      }
      RunWithin(b, s.queue, s.vis, trace + [s.visit], closed && !s.open, c);
    }
  }

  // ---- board_bfs ------------------------------------------------------------------------------

  /** board_bfs(x, y, pos): an empty start cell returns "completed" without any callback. */
  function Bfs(b: Board, x: int, y: int, pos: Pos): (r: WalkResult)
    ensures (x, y) !in b.grid ==> r == WalkResult([], {}, true)
    ensures (x, y) in b.grid ==> |r.trace| > 0
  {
    if (x, y) !in b.grid then WalkResult([], {}, true)
    else
      RunPrefix(b, [Entry(x, y, pos)], {}, [], true);
      Run(b, [Entry(x, y, pos)], {}, [], true)
  }

  /**
   * The first callback of a walk is the start segment with revisit false, each callback's
   * revisit flag says whether its cell was reached before, and the marks are exactly the
   * segments the callbacks were given.
   */
  lemma BfsTrace(b: Board, x: int, y: int, pos: Pos)
    ensures var r := Bfs(b, x, y, pos);
      && ((x, y) in b.grid ==> r.trace[0] == Visit(x, y, pos, false))
      && TraceOnBoard(b, r.trace) && r.visited == TraceTriples(b, r.trace)
      && RevisitFlags(r.trace)
  {
    if (x, y) in b.grid {
      assert TraceTriples(b, []) == {};
      RunTrace(b, [Entry(x, y, pos)], {}, [], true);
      RunFirst(b, x, y, pos);
    } else {
      assert TraceTriples(b, []) == {};
    }
  }

  /**
   * The marks of a walk are closed under the join step, and the walk is reported closed
   * exactly when no marked segment has an id-carrying edge slot facing an empty cell.
   */
  lemma BfsClosed(b: Board, x: int, y: int, pos: Pos)
    ensures var r := Bfs(b, x, y, pos);
      && SuccClosed(b, r.visited)
      && (r.closed <==> forall tr | tr in r.visited :: !OpenAt(b, tr))
  {
    if (x, y) in b.grid {
      RunClosed(b, [Entry(x, y, pos)], {}, [], true);
      RunClosure(b, [Entry(x, y, pos)], {}, [], true);
    }
  }

  /** The first callback of a walk from an occupied cell is the start segment, not a revisit. */
  lemma RunFirst(b: Board, x: int, y: int, pos: Pos)
    requires (x, y) in b.grid
    ensures var r := Run(b, [Entry(x, y, pos)], {}, [], true);
      |r.trace| > 0 && r.trace[0] == Visit(x, y, pos, false)
  {
    var q := [Entry(x, y, pos)];
    assert q[0] in q;
    var s := Step(b, q, {});
    StepDecreases(b, q, {});
    assert s.visit == Visit(x, y, pos, false);
    var none: seq<Visit> := [];
    assert Run(b, q, {}, none, true) == Run(b, s.queue, s.vis, none + [s.visit], true && !s.open);
    RunPrefix(b, s.queue, s.vis, none + [s.visit], true && !s.open);
    var r := Run(b, q, {}, none, true);
    assert none + [s.visit] == [s.visit];
    assert r.trace[..1] == [s.visit];
    assert r.trace[0] == r.trace[..1][0];
  }

  /** The mark of the start segment of a walk from an occupied cell. */
  function StartTriple(b: Board, x: int, y: int, pos: Pos): Triple
    requires (x, y) in b.grid
  {
    (x, y, b.grid[(x, y)].ids[pos])
  }

  lemma BfsMarksStart(b: Board, x: int, y: int, pos: Pos)
    requires (x, y) in b.grid
    ensures StartTriple(b, x, y, pos) in Bfs(b, x, y, pos).visited
  {
    var r := Bfs(b, x, y, pos);
    BfsTrace(b, x, y, pos);
    assert VisitTriple(b, r.trace[0]) == StartTriple(b, x, y, pos);
  }

  /** The walk never leaves a join-closed set of marks that contains its start. */
  lemma BfsWithin(b: Board, x: int, y: int, pos: Pos, c: set<Triple>)
    requires (x, y) in b.grid && SuccClosed(b, c) && StartTriple(b, x, y, pos) in c
    ensures Bfs(b, x, y, pos).visited <= c
  {
    var q := [Entry(x, y, pos)];
    assert q[0] in q;
    assert forall e | e in q :: e == q[0];
    assert QueueTriples(b, q) == {StartTriple(b, x, y, pos)};
    RunWithin(b, q, {}, [], true, c);
  }

  /** A walk started from any segment an earlier walk marked stays inside that earlier walk. */
  lemma BfsSubsumes(b: Board, x: int, y: int, pos: Pos, x': int, y': int, pos': Pos)
    requires (x, y) in b.grid && (x', y') in b.grid
    requires StartTriple(b, x', y', pos') in Bfs(b, x, y, pos).visited
    ensures Bfs(b, x', y', pos').visited <= Bfs(b, x, y, pos).visited
  {
    BfsClosed(b, x, y, pos);
    BfsWithin(b, x', y', pos', Bfs(b, x, y, pos).visited);
  }

  /** Two start segments with the same mark give the same marks and the same closed flag. */
  lemma BfsSameMark(b: Board, x: int, y: int, pos: Pos, pos': Pos)
    requires (x, y) in b.grid && StartTriple(b, x, y, pos) == StartTriple(b, x, y, pos')
    ensures Bfs(b, x, y, pos).visited == Bfs(b, x, y, pos').visited
    ensures Bfs(b, x, y, pos).closed == Bfs(b, x, y, pos').closed
  {
    BfsMarksStart(b, x, y, pos);
    BfsMarksStart(b, x, y, pos');
    BfsSubsumes(b, x, y, pos, x, y, pos');
    BfsSubsumes(b, x, y, pos', x, y, pos);
    BfsClosed(b, x, y, pos);
    BfsClosed(b, x, y, pos');
  }

  // ---- the walk ignores meeples -----------------------------------------------------------

  /** Same occupied cells with the same types and ids: the boards differ at most in meeples, flags, rotation or bitmap. */
  predicate SameShape(b1: Board, b2: Board)
  {
    && b1.grid.Keys == b2.grid.Keys
    && forall c | c in b1.grid :: b1.grid[c].types == b2.grid[c].types && b1.grid[c].ids == b2.grid[c].ids
  }

  lemma {:induction false} SideScanSameShape(b1: Board, b2: Board, t: Tile, nx: int, ny: int, id: nat, ai: nat, bi: nat, i: nat)
    requires SameShape(b1, b2) && ai + 2 < 13 && bi + 2 < 13 && i <= 3
    ensures SideScan(b1, t, nx, ny, id, ai, bi, i) == SideScan(b2, t, nx, ny, id, ai, bi, i)
    decreases 3 - i
  {
    if i < 3 {
      SideScanSameShape(b1, b2, t, nx, ny, id, ai, bi, i + 1);
    }
  }

  lemma OutcomesSameShape(b1: Board, b2: Board, t1: Tile, t2: Tile, x: int, y: int, id: nat)
    requires SameShape(b1, b2) && t1.types == t2.types && t1.ids == t2.ids
    ensures Outcomes(b1, t1, x, y, id) == Outcomes(b2, t2, x, y, id)
  {
    SideScanSameTile(b1, t1, t2, x, y - 1, id, 0, 6, 0);
    SideScanSameTile(b1, t1, t2, x, y + 1, id, 6, 0, 0);
    SideScanSameTile(b1, t1, t2, x - 1, y, id, 9, 3, 0);
    SideScanSameTile(b1, t1, t2, x + 1, y, id, 3, 9, 0);
    SideScanSameShape(b1, b2, t2, x, y - 1, id, 0, 6, 0);
    SideScanSameShape(b1, b2, t2, x, y + 1, id, 6, 0, 0);
    SideScanSameShape(b1, b2, t2, x - 1, y, id, 9, 3, 0);
    SideScanSameShape(b1, b2, t2, x + 1, y, id, 3, 9, 0);
  }

  lemma {:induction false} SideScanSameTile(b: Board, t1: Tile, t2: Tile, nx: int, ny: int, id: nat, ai: nat, bi: nat, i: nat)
    requires t1.types == t2.types && t1.ids == t2.ids && ai + 2 < 13 && bi + 2 < 13 && i <= 3
    ensures SideScan(b, t1, nx, ny, id, ai, bi, i) == SideScan(b, t2, nx, ny, id, ai, bi, i)
    decreases 3 - i
  {
    if i < 3 {
      SideScanSameTile(b, t1, t2, nx, ny, id, ai, bi, i + 1);
    }
  }

  lemma UniverseSameShape(b1: Board, b2: Board)
    requires SameShape(b1, b2)
    ensures Universe(b1) == Universe(b2)
  {
  }

  lemma {:induction false} RunSameShape(b1: Board, b2: Board, q: seq<Entry>, vis: set<Triple>, trace: seq<Visit>, closed: bool)
    requires SameShape(b1, b2)
    requires AllOnBoard(b1, q) && vis <= Universe(b1)
    ensures AllOnBoard(b2, q) && vis <= Universe(b2)
    ensures Run(b1, q, vis, trace, closed) == Run(b2, q, vis, trace, closed)
    decreases Potential(b1, q, vis)
  {
    UniverseSameShape(b1, b2);
    if |q| > 0 {
      StepDecreases(b1, q, vis);
      var h := q[0];
      OutcomesSameShape(b1, b2, b1.grid[(h.x, h.y)], b2.grid[(h.x, h.y)], h.x, h.y, b1.grid[(h.x, h.y)].ids[h.pos]);
      EnqueueSameShape(b1, b2, Outcomes(b1, b1.grid[(h.x, h.y)], h.x, h.y, b1.grid[(h.x, h.y)].ids[h.pos]), Step(b1, q, vis).vis);
      assert Step(b1, q, vis) == Step(b2, q, vis);
      var s := Step(b1, q, vis);
      RunSameShape(b1, b2, s.queue, s.vis, trace + [s.visit], closed && !s.open);
    }
  }

  lemma {:induction false} EnqueueSameShape(b1: Board, b2: Board, os: seq<SideOutcome>, vis: set<Triple>)
    requires SameShape(b1, b2)
    requires forall o | o in os :: o.Join? ==> OnBoard(b1, o.to)
    ensures forall o | o in os :: o.Join? ==> OnBoard(b2, o.to)
    ensures Enqueue(b1, os, vis) == Enqueue(b2, os, vis)
    decreases |os|
  {
    if |os| > 0 {
      EnqueueSameShape(b1, b2, os[1..], vis);
    }
  }

  /** Changing only meeples (or anything but types and ids) does not change any walk. */
  lemma BfsSameShape(b1: Board, b2: Board, x: int, y: int, pos: Pos)
    requires SameShape(b1, b2)
    ensures Bfs(b1, x, y, pos) == Bfs(b2, x, y, pos)
  {
    if (x, y) in b1.grid {
      RunSameShape(b1, b2, [Entry(x, y, pos)], {}, [], true);
    }
  }
}
