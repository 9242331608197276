/**
 The lineage check of `runvault verify`: no run may be its own ancestor.

 The walk is an iterative three-colour depth-first search with an explicit stack
 of enter and leave entries. It is proved to stop on every finite record and to
 report an error exactly when a directed cycle can be reached from the run.
*/
module Lineage {
  import opened Wrappers
  import opened Sequences

  /** The three lineage edges a run may carry. */
  datatype Record = Record(parentRunUid: Option<string>, resumedFrom: Option<string>, derivedFrom: Option<string>)

  /** What reading a sibling's `run.json` yields. */
  datatype Sibling = Readable(lineage: Option<Record>) | Unreadable

  /** The run under check, its own lineage, and the runs found below the same results root. */
  datatype Graph = Graph(runUid: string, lineage: Record, siblings: map<string, Sibling>)

  // What leads where, read off the records

  /** The record that counts for a run: its own as passed in, and for others what can be read of a sibling. */
  ghost predicate InForce(g: Graph, x: string, l: Record) {
    if x == g.runUid then l == g.lineage
    else x in g.siblings && g.siblings[x] == Readable(Some(l))
  }

  /** A record names a run in one of its three fields. */
  predicate Names(l: Record, y: string) {
    l.parentRunUid == Some(y) || l.resumedFrom == Some(y) || l.derivedFrom == Some(y)
  }

  /** The record in force for one run names the other. */
  ghost predicate LeadsTo(g: Graph, x: string, y: string) {
    exists l :: InForce(g, x, l) && Names(l, y)
  }

  // How the search holds it

  datatype Mark = OnPath | Done

  /** A stack entry: a run to enter, or a run whose successors have all been handled. */
  datatype Entry = Entry(uid: string, leaving: bool)

  datatype Verdict = Acyclic | Cyclic(uid: string)

  function Listed(edge: Option<string>): seq<string> {
    match edge
    case Some(uid) => [uid]
    case None => []
  }

  function EdgesOf(l: Record): seq<string> {
    Listed(l.parentRunUid) + Listed(l.resumedFrom) + Listed(l.derivedFrom)
  }

  /** The successors of a run. The run under check answers from the record passed in, never from disk. */
  function Next(g: Graph, uid: string): seq<string> {
    if uid == g.runUid then EdgesOf(g.lineage)
    else if uid in g.siblings && g.siblings[uid].Readable? && g.siblings[uid].lineage.Some? then
      EdgesOf(g.siblings[uid].lineage.value)
    else []
  }

  /** The successors the search follows are the runs the records lead to. */
  lemma NextIsWhereItLeads(g: Graph, x: string, y: string)
    ensures y in Next(g, x) <==> LeadsTo(g, x, y)
  {
    if x == g.runUid {
      assert InForce(g, x, g.lineage);
    } else if x in g.siblings && g.siblings[x].Readable? && g.siblings[x].lineage.Some? {
      assert InForce(g, x, g.siblings[x].lineage.value);
    }
  }

  /** A non-empty sequence of runs, each led to by the run before it. */
  ghost predicate Walk(g: Graph, w: seq<string>) {
    w != [] && (|w| > 1 ==> Walk(g, Front(w)) && LeadsTo(g, Last(Front(w)), Last(w)))
  }

  ghost predicate Reaches(g: Graph, a: string, b: string, steps: nat) {
    exists w :: Walk(g, w) && w[0] == a && Last(w) == b && |w| == steps + 1
  }

  /** `uid` can be reached from the run under check, and leads back to itself in at least one step. */
  ghost predicate OnReachableCycle(g: Graph, uid: string) {
    exists m: nat, n: nat :: n >= 1 && Reaches(g, g.runUid, uid, m) && Reaches(g, uid, uid, n)
  }

  ghost predicate HasReachableCycle(g: Graph) {
    exists uid :: OnReachableCycle(g, uid)
  }

  lemma ReachesItself(g: Graph, a: string)
    ensures Reaches(g, a, a, 0)
  {
    assert Walk(g, [a]);
  }

  lemma ReachesFurther(g: Graph, a: string, b: string, c: string, steps: nat)
    requires Reaches(g, a, b, steps) && c in Next(g, b)
    ensures Reaches(g, a, c, steps + 1)
  {
    var w :| Walk(g, w) && w[0] == a && Last(w) == b && |w| == steps + 1;
    NextIsWhereItLeads(g, b, c);
    assert Front(w + [c]) == w;
    assert Walk(g, w + [c]);
  }

  /** Every uid the walk can ever meet; it is finite because the record is. */
  ghost function Universe(g: Graph): set<string> {
    {g.runUid} + (set x | x in EdgesOf(g.lineage))
    + (set k, x | k in g.siblings && x in Next(g, k) :: x)
  }

  lemma NextInUniverse(g: Graph, uid: string)
    ensures forall x :: x in Next(g, uid) ==> x in Universe(g)
  {
    if uid != g.runUid && uid in g.siblings {
      assert forall x :: x in Next(g, uid) ==> uid in g.siblings && x in Next(g, uid);
    }
  }

  // -------------------------------------------------------------------------
  // Completeness: a rank that drops along every edge leaves no room for a cycle
  // -------------------------------------------------------------------------

  /** Every ranked run has only ranked successors, all of strictly smaller rank. */
  ghost predicate Ranked(g: Graph, rank: map<string, nat>) {
    forall u :: u in rank ==>
      rank[u] < |rank| && forall s :: s in Next(g, u) ==> s in rank && rank[s] < rank[u]
  }

  lemma {:induction false} RankDropsAlongWalk(g: Graph, rank: map<string, nat>, w: seq<string>)
    requires Ranked(g, rank) && Walk(g, w) && w[0] in rank
    ensures Last(w) in rank && rank[Last(w)] + |w| - 1 <= rank[w[0]]
    decreases |w|
  {
    if |w| > 1 {
      RankDropsAlongWalk(g, rank, Front(w));
      NextIsWhereItLeads(g, Last(Front(w)), Last(w));
    }
  }

  lemma RankedHasNoCycle(g: Graph, rank: map<string, nat>)
    requires Ranked(g, rank) && g.runUid in rank
    ensures !HasReachableCycle(g)
  {
    forall uid | OnReachableCycle(g, uid)
      ensures false
    {
      var m: nat, n: nat :| n >= 1 && Reaches(g, g.runUid, uid, m) && Reaches(g, uid, uid, n);
      var w :| Walk(g, w) && w[0] == g.runUid && Last(w) == uid && |w| == m + 1;
      var c :| Walk(g, c) && c[0] == uid && Last(c) == uid && |c| == n + 1;
      RankDropsAlongWalk(g, rank, w);
      RankDropsAlongWalk(g, rank, c);
    }
  }

  lemma RankedExtends(g: Graph, rank: map<string, nat>, u: string)
    requires Ranked(g, rank) && u !in rank
    requires forall s :: s in Next(g, u) ==> s in rank
    ensures Ranked(g, rank[u := |rank|])
    ensures rank[u := |rank|].Keys == rank.Keys + {u}
  {
    var more := rank[u := |rank|];
    assert more.Keys == rank.Keys + {u};
    assert |more| == |rank| + 1 by { assert |more.Keys| == |rank.Keys| + 1; }
    forall v | v in more
      ensures more[v] < |more| && forall s :: s in Next(g, v) ==> s in more && more[s] < more[v]
    {
      assert v != u ==> v in rank;
    }
  }

  // -------------------------------------------------------------------------
  // Soundness: the leave entries are the current path
  // -------------------------------------------------------------------------

  /** One run of the current path, with those of its successors that still wait to be entered. */
  datatype Frame = Frame(uid: string, pending: seq<string>)

  function Entering(uids: seq<string>): seq<Entry> {
    if uids == [] then [] else Entering(Front(uids)) + [Entry(Last(uids), false)]
  }

  /** The stack a path stands for: each run's leave entry, then the successors of it that wait. */
  ghost function StackOf(frames: seq<Frame>): seq<Entry> {
    if frames == [] then []
    else StackOf(Front(frames)) + [Entry(Last(frames).uid, true)] + Entering(Last(frames).pending)
  }

  ghost function Uids(frames: seq<Frame>): set<string> {
    if frames == [] then {} else Uids(Front(frames)) + {Last(frames).uid}
  }

  /** What waits are successors; every successor is done, waits, or is the next run of the path. */
  ghost predicate Accounted(succ: seq<string>, pending: seq<string>, done: set<string>, child: Option<string>) {
    && (forall s :: s in pending ==> s in succ)
    && (child.Some? ==> child.value in succ)
    && (forall s :: s in succ ==> s in pending || s in done || child == Some(s))
  }

  lemma TakeAccounted(succ: seq<string>, pending: seq<string>, done: set<string>)
    requires Accounted(succ, pending, done, None) && pending != []
    ensures Last(pending) in succ
    ensures Accounted(succ, Front(pending), done, Some(Last(pending)))
  {
    assert pending == Front(pending) + [Last(pending)];
  }

  /** The path starts at the run, repeats no run, follows edges, and accounts for every successor. */
  ghost predicate Path(g: Graph, frames: seq<Frame>, done: set<string>, child: Option<string>) {
    frames == [] || (
      var top, below := Last(frames), Front(frames);
      && (below == [] ==> top.uid == g.runUid)
      && top.uid !in Uids(below)
      && Accounted(Next(g, top.uid), top.pending, done, child)
      && Path(g, below, done, Some(top.uid)))
  }

  lemma {:induction false} PathKeepsAsDoneGrows(
    g: Graph, frames: seq<Frame>, done: set<string>, more: set<string>, child: Option<string>)
    requires Path(g, frames, done, child) && done <= more
    ensures Path(g, frames, more, child)
    ensures child.Some? && child.value in more ==> Path(g, frames, more, None)
    decreases |frames|
  {
    if frames != [] {
      PathKeepsAsDoneGrows(g, Front(frames), done, more, Some(Last(frames).uid));
    }
  }

  /** Every run of the path can be reached from the run under check, and reaches whatever follows the path. */
  lemma {:induction false} PathReaches(g: Graph, frames: seq<Frame>, done: set<string>, x: string, child: string)
    requires Path(g, frames, done, Some(child)) && x in Uids(frames)
    ensures exists m :: Reaches(g, g.runUid, x, m)
    ensures exists n :: n >= 1 && Reaches(g, x, child, n)
    decreases |frames|
  {
    var top, below := Last(frames), Front(frames);
    if x == top.uid {
      ReachesItself(g, x);
      ReachesFurther(g, x, x, child, 0);
      if below != [] {
        PathReaches(g, below, done, Last(below).uid, x);
        var m :| Reaches(g, g.runUid, Last(below).uid, m);
        ReachesFurther(g, g.runUid, Last(below).uid, x, m);
      }
    } else {
      PathReaches(g, below, done, x, top.uid);
      var n :| n >= 1 && Reaches(g, x, top.uid, n);
      ReachesFurther(g, x, top.uid, child, n);
    }
  }

  /** Meeting a run that is already on the path closes a cycle through it. */
  lemma ClosingEdgeIsCycle(g: Graph, frames: seq<Frame>, done: set<string>, uid: string)
    requires frames != [] && Path(g, frames, done, None)
    requires uid in Uids(frames) && uid in Next(g, Last(frames).uid)
    ensures OnReachableCycle(g, uid)
  {
    assert Path(g, frames, done, Some(uid));
    PathReaches(g, frames, done, uid, uid);
  }

  /** The path once `uid`, the last waiting successor, has been taken off the stack. */
  ghost function Taken(frames: seq<Frame>): seq<Frame>
    requires frames != [] ==> Last(frames).pending != []
  {
    if frames == [] then [] else Front(frames) + [Frame(Last(frames).uid, Front(Last(frames).pending))]
  }

  lemma TopLeaves(frames: seq<Frame>)
    requires frames != [] && Last(frames).pending == []
    ensures Front(StackOf(frames)) == StackOf(Front(frames))
  {
  }

  /** Before the first run is entered the stack holds just it; afterwards the stack mirrors the path. */
  ghost predicate Mirrors(g: Graph, stack: seq<Entry>, frames: seq<Frame>, entered: bool) {
    if entered then stack == StackOf(frames) else frames == [] && stack == [Entry(g.runUid, false)]
  }

  /** `OnPath` marks the path, `Done` marks the ranked runs, and nothing else is marked. */
  ghost predicate MarksAgree(marks: map<string, Mark>, frames: seq<Frame>, rank: map<string, nat>) {
    && (forall u :: u in Uids(frames) <==> u in marks && marks[u] == OnPath)
    && (forall u :: u in rank <==> u in marks && marks[u] == Done)
  }

  /** How many runs are unmarked, and how many are not done: one of the two, or the stack, shrinks at every step. */
  ghost function Unmarked(g: Graph, marks: map<string, Mark>): nat {
    |Universe(g) - marks.Keys|
  }

  ghost function Undone(universe: set<string>, marks: map<string, Mark>): set<string> {
    set u | u in universe && !(u in marks && marks[u] == Done)
  }

  ghost predicate Shrinks(g: Graph, stack: seq<Entry>, marks: map<string, Mark>,
                          stack': seq<Entry>, marks': map<string, Mark>)
  {
    var universe := Universe(g);
    Unmarked(g, marks') < Unmarked(g, marks)
    || (Unmarked(g, marks') == Unmarked(g, marks)
        && (|Undone(universe, marks')| < |Undone(universe, marks)| || (marks' == marks && |stack'| < |stack|)))
  }

  lemma LeavingShrinks(universe: set<string>, marks: map<string, Mark>, uid: string)
    requires uid in marks && marks[uid] == OnPath && uid in universe
    ensures |Undone(universe, marks[uid := Done])| < |Undone(universe, marks)|
    ensures universe - marks[uid := Done].Keys == universe - marks.Keys
  {
    assert Undone(universe, marks[uid := Done]) == Undone(universe, marks) - {uid};
    assert uid in Undone(universe, marks);
  }

  lemma EnteringShrinks(universe: set<string>, marks: map<string, Mark>, uid: string)
    requires uid !in marks && uid in universe
    ensures |universe - marks[uid := OnPath].Keys| < |universe - marks.Keys|
  {
    assert universe - marks[uid := OnPath].Keys == (universe - marks.Keys) - {uid};
    assert uid in universe - marks.Keys;
  }

  /** Pushes one enter entry per successor. */
  method PushAll(stack: seq<Entry>, next: seq<string>) returns (pushed: seq<Entry>)
    ensures pushed == stack + Entering(next)
  {
    pushed := stack;
    for i := 0 to |next|
      invariant pushed == stack + Entering(next[..i])
    {
      pushed := pushed + [Entry(next[i], false)];
      assert Front(next[..i + 1]) == next[..i];
    }
    assert next[..|next|] == next;
  }

  /** What the proof keeps beside the stack and the marks: the path, the ranks, and whether the run was entered. */
  datatype Progress = Progress(frames: seq<Frame>, rank: map<string, nat>, entered: bool)

  /** The loop invariant of the search. */
  ghost predicate Searching(g: Graph, stack: seq<Entry>, marks: map<string, Mark>, p: Progress) {
    && Mirrors(g, stack, p.frames, p.entered)
    && MarksAgree(marks, p.frames, p.rank)
    && Path(g, p.frames, p.rank.Keys, None)
    && Ranked(g, p.rank)
    && marks.Keys <= Universe(g)
    && (!p.entered ==> marks == map[])
    && (p.entered && p.frames == [] ==> g.runUid in p.rank)
  }

  lemma LeaveMarks(marks: map<string, Mark>, frames: seq<Frame>, rank: map<string, nat>, rank': map<string, nat>)
    requires MarksAgree(marks, frames, rank) && frames != [] && Last(frames).uid !in Uids(Front(frames))
    requires rank'.Keys == rank.Keys + {Last(frames).uid}
    ensures MarksAgree(marks[Last(frames).uid := Done], Front(frames), rank')
  {
    var uid := Last(frames).uid;
    var marks' := marks[uid := Done];
    forall u
      ensures u in Uids(Front(frames)) <==> u in marks' && marks'[u] == OnPath
      ensures u in rank' <==> u in marks' && marks'[u] == Done
    {
      assert u in rank' <==> u in rank.Keys + {uid};
      assert u in Uids(frames) <==> u in Uids(Front(frames)) || u == uid;
    }
  }

  lemma LeaveStep(g: Graph, stack: seq<Entry>, marks: map<string, Mark>, p: Progress) returns (p': Progress)
    requires Searching(g, stack, marks, p) && stack != [] && Last(stack).leaving
    ensures Searching(g, Front(stack), marks[Last(stack).uid := Done], p')
    ensures Shrinks(g, stack, marks, Front(stack), marks[Last(stack).uid := Done])
  {
    TopLeaves(p.frames);
    var uid := Last(p.frames).uid;
    var rank' := p.rank[uid := |p.rank|];
    assert uid in Uids(p.frames);
    LeavingShrinks(Universe(g), marks, uid);
    assert Ranked(g, rank') && rank'.Keys == p.rank.Keys + {uid} by { RankedExtends(g, p.rank, uid); }
    LeaveMarks(marks, p.frames, p.rank, rank');
    PathKeepsAsDoneGrows(g, Front(p.frames), p.rank.Keys, rank'.Keys, Some(uid));
    p' := Progress(Front(p.frames), rank', p.entered);
  }

  lemma TakePath(g: Graph, frames: seq<Frame>, done: set<string>)
    requires frames != [] && Path(g, frames, done, None) && Last(frames).pending != []
    ensures Last(Last(frames).pending) in Next(g, Last(frames).uid)
    ensures Path(g, Taken(frames), done, Some(Last(Last(frames).pending)))
    ensures Uids(Taken(frames)) == Uids(frames)
  {
    var top, taken, uid := Last(frames), Taken(frames), Last(Last(frames).pending);
    TakeAccounted(Next(g, top.uid), top.pending, done);
    assert Front(taken) == Front(frames) && Last(taken) == Frame(top.uid, Front(top.pending));
  }

  lemma TakeStep(g: Graph, stack: seq<Entry>, marks: map<string, Mark>, p: Progress)
    requires Searching(g, stack, marks, p) && stack != [] && !Last(stack).leaving
    ensures Last(stack).uid in Universe(g)
    ensures p.frames == [] ==> Last(stack).uid == g.runUid && !p.entered
    ensures p.frames != [] ==>
      p.entered && Last(p.frames).pending != [] && Last(stack).uid in Next(g, Last(p.frames).uid)
    ensures Front(stack) == StackOf(Taken(p.frames))
    ensures Uids(Taken(p.frames)) == Uids(p.frames)
    ensures Path(g, Taken(p.frames), p.rank.Keys, if p.entered then Some(Last(stack).uid) else None)
  {
    if p.frames != [] {
      TakePath(g, p.frames, p.rank.Keys);
      NextInUniverse(g, Last(p.frames).uid);
    }
  }

  lemma EnterPath(g: Graph, taken: seq<Frame>, done: set<string>, uid: string)
    requires Path(g, taken, done, if taken == [] then None else Some(uid))
    requires taken == [] ==> uid == g.runUid
    requires uid !in Uids(taken)
    ensures Path(g, taken + [Frame(uid, Next(g, uid))], done, None)
  {
    var f := Frame(uid, Next(g, uid));
    assert Front(taken + [f]) == taken && Last(taken + [f]) == f;
  }

  lemma EnterMarks(marks: map<string, Mark>, frames: seq<Frame>, f: Frame, rank: map<string, nat>)
    requires MarksAgree(marks, frames, rank) && f.uid !in marks
    ensures MarksAgree(marks[f.uid := OnPath], frames + [f], rank)
  {
  }

  lemma EnterStep(g: Graph, stack: seq<Entry>, marks: map<string, Mark>, p: Progress) returns (p': Progress)
    requires Searching(g, stack, marks, p) && stack != [] && !Last(stack).leaving
    requires Last(stack).uid !in marks
    ensures var uid := Last(stack).uid;
      Searching(g, Front(stack) + [Entry(uid, true)] + Entering(Next(g, uid)), marks[uid := OnPath], p')
    ensures Unmarked(g, marks[Last(stack).uid := OnPath]) < Unmarked(g, marks)
  {
    TakeStep(g, stack, marks, p);
    var uid, taken := Last(stack).uid, Taken(p.frames);
    var f := Frame(uid, Next(g, uid));
    p' := Progress(taken + [f], p.rank, true);
    EnteringShrinks(Universe(g), marks, uid);
    assert MarksAgree(marks[uid := OnPath], p'.frames, p.rank) by { EnterMarks(marks, taken, f, p.rank); }
    assert Path(g, p'.frames, p.rank.Keys, None) by { EnterPath(g, taken, p.rank.Keys, uid); }
    assert Mirrors(g, Front(stack) + [Entry(uid, true)] + Entering(Next(g, uid)), p'.frames, true);
  }

  lemma SkipStep(g: Graph, stack: seq<Entry>, marks: map<string, Mark>, p: Progress) returns (p': Progress)
    requires Searching(g, stack, marks, p) && stack != [] && !Last(stack).leaving
    requires Last(stack).uid in marks && marks[Last(stack).uid] == Done
    ensures Searching(g, Front(stack), marks, p')
  {
    TakeStep(g, stack, marks, p);
    PathKeepsAsDoneGrows(g, Taken(p.frames), p.rank.Keys, p.rank.Keys, Some(Last(stack).uid));
    p' := Progress(Taken(p.frames), p.rank, p.entered);
  }

  lemma FoundStep(g: Graph, stack: seq<Entry>, marks: map<string, Mark>, p: Progress)
    requires Searching(g, stack, marks, p) && stack != [] && !Last(stack).leaving
    requires Last(stack).uid in marks && marks[Last(stack).uid] == OnPath
    ensures OnReachableCycle(g, Last(stack).uid)
  {
    TakeStep(g, stack, marks, p);
    ClosingEdgeIsCycle(g, p.frames, p.rank.Keys, Last(stack).uid);
  }

  /** One turn of the loop: handles the entry on top of the stack. `found` reports a run met while on the path. */
  method Turn(g: Graph, stack: seq<Entry>, marks: map<string, Mark>, ghost p: Progress)
    returns (found: bool, stack': seq<Entry>, marks': map<string, Mark>, ghost p': Progress)
    requires Searching(g, stack, marks, p) && stack != []
    ensures found ==> OnReachableCycle(g, Last(stack).uid)
    ensures !found ==> Searching(g, stack', marks', p') && Shrinks(g, stack, marks, stack', marks')
  {
    var uid := Last(stack).uid;
    found, stack', marks', p' := false, Front(stack), marks, p;
    if Last(stack).leaving {
      p' := LeaveStep(g, stack, marks, p);
      marks' := marks[uid := Done];
    } else if uid in marks && marks[uid] == OnPath {
      FoundStep(g, stack, marks, p);
      found := true;
    } else if uid in marks {
      p' := SkipStep(g, stack, marks, p);
    } else {
      p' := EnterStep(g, stack, marks, p);
      marks' := marks[uid := OnPath];
      stack' := PushAll(Front(stack) + [Entry(uid, true)], Next(g, uid));
    }
  }

  /**
   The search with an explicit stack of entries to visit and to leave.

   `Cyclic` is returned if and only if a cycle can be reached from the run, and the uid it names is
   on such a cycle.
  */
  method CheckNoCycle(g: Graph) returns (verdict: Verdict)
    ensures verdict.Cyclic? <==> HasReachableCycle(g)
    ensures verdict.Cyclic? ==> OnReachableCycle(g, verdict.uid)
  {
    var marks: map<string, Mark> := map[];
    var stack := [Entry(g.runUid, false)];
    ghost var p := Progress([], map[], false);
    while stack != []
      invariant Searching(g, stack, marks, p)
      decreases Unmarked(g, marks), |Undone(Universe(g), marks)|, |stack|
    {
      var uid := Last(stack).uid;
      var found;
      found, stack, marks, p := Turn(g, stack, marks, p);
      if found { return Cyclic(uid); }
    }
    RankedHasNoCycle(g, p.rank);
    return Acyclic;
  }
}
