/**
 How far a deletion of several runs has got. After any number of stages the
 repository is what it was, less the directories and links of the plans that
 have passed those stages, with a tombstone for each plan that has begun.
*/
module DeletionProgress {
  import opened Wrappers
  import opened Deletion

  function AllDirs(plans: seq<DeletePlan>): set<string> {
    if plans == [] then {} else DirsOf(plans[0]) + AllDirs(plans[1..])
  }

  function AllPlaces(plans: seq<DeletePlan>): set<Place> {
    if plans == [] then {} else PlacesOf(plans[0]) + AllPlaces(plans[1..])
  }

  function AllLinks(plans: seq<DeletePlan>): set<Link> {
    if plans == [] then {} else {LinkOf(plans[0])} + AllLinks(plans[1..])
  }

  /** The lines the plans add, one for each run that has none. */
  function NewLines(plans: seq<DeletePlan>): seq<Line> {
    if plans == [] then []
    else (if plans[0].alreadyTombstoned then [] else [Recorded(plans[0].tombstone)]) + NewLines(plans[1..])
  }

  /** The repository when `buried`, `cleared` and `removed` plans have passed the three stages. */
  function Reached(w: World, plans: seq<DeletePlan>, buried: nat, cleared: nat, removed: nat): World
    requires removed <= cleared <= buried <= |plans|
  {
    World(WithoutDirs(w.sources, AllDirs(plans[..removed])),
          WithoutPlaces(w.vault, AllPlaces(plans[..cleared])),
          w.links - AllLinks(plans[..cleared]),
          w.lines + NewLines(plans[..buried]))
  }

  predicate PreparedOne(g: Grammar, repo: string, tombstones: map<string, Tombstone>, p: DeletePlan) {
    && ValidTombstone(g, repo, p.tombstone) && p.tombstone.runUid == p.runUid
    && (p.alreadyTombstoned <==> p.runUid in tombstones)
    && (p.alreadyTombstoned ==> tombstones[p.runUid] == p.tombstone)
  }

  /** The plans name different runs, and know rightly which of them have a tombstone. */
  ghost predicate PreparedAll(g: Grammar, repo: string, tombstones: map<string, Tombstone>, plans: seq<DeletePlan>) {
    && (forall i :: 0 <= i < |plans| ==> PreparedOne(g, repo, tombstones, plans[i]))
    && (forall i, j :: 0 <= i < j < |plans| ==> plans[i].runUid != plans[j].runUid)
  }

  ghost predicate Prepared(g: Grammar, repo: string, lines: seq<Line>, plans: seq<DeletePlan>) {
    Read(g, repo, lines).Ok? && PreparedAll(g, repo, Read(g, repo, lines).value, plans)
  }

  /** One prepared plan, carried out up to some stage. */
  lemma ExecuteOne(g: Grammar, repo: string, w: World, p: DeletePlan, stages: nat)
    requires Read(g, repo, w.lines).Ok? && PreparedOne(g, repo, Read(g, repo, w.lines).value, p) && stages <= 3
    ensures Execute(g, w, p, stages).Ok?
    ensures Execute(g, w, p, stages).value ==
            Reached(w, [p], if stages >= 1 then 1 else 0, if stages >= 2 then 1 else 0, if stages >= 3 then 1 else 0)
  {
    OfOne(p);
    NothingRemoved(w);
    assert [p][..0] == [] && [p][..1] == [p];
    assert w.links - {} == w.links && w.lines + [] == w.lines;
  }

  lemma OfOne(p: DeletePlan)
    ensures AllDirs([p]) == DirsOf(p) && AllPlaces([p]) == PlacesOf(p) && AllLinks([p]) == {LinkOf(p)}
    ensures NewLines([p]) == if p.alreadyTombstoned then [] else [Recorded(p.tombstone)]
  {
    assert [p][1..] == [];
  }

  /** The file after one prepared plan has been buried. */
  lemma ReadOne(g: Grammar, repo: string, lines: seq<Line>, p: DeletePlan)
    requires Read(g, repo, lines).Ok? && PreparedOne(g, repo, Read(g, repo, lines).value, p)
    ensures Read(g, repo, lines + NewLines([p])) == Ok(BuriedOne(Read(g, repo, lines).value, p))
  {
    OfOne(p);
    if p.alreadyTombstoned {
      assert lines + [] == lines;
    } else {
      ReadAppended(g, repo, lines, p.tombstone);
    }
  }

  function BuriedOne(tombstones: map<string, Tombstone>, p: DeletePlan): map<string, Tombstone> {
    if p.alreadyTombstoned then tombstones else tombstones[p.runUid := p.tombstone]
  }

  lemma PreparedRest(g: Grammar, repo: string, tombstones: map<string, Tombstone>, plans: seq<DeletePlan>)
    requires plans != [] && PreparedAll(g, repo, tombstones, plans)
    ensures PreparedAll(g, repo, BuriedOne(tombstones, plans[0]), plans[1..])
  {
    var p, rest := plans[0], plans[1..];
    forall i | 0 <= i < |rest|
      ensures PreparedOne(g, repo, BuriedOne(tombstones, p), rest[i])
    {
      assert rest[i] == plans[i + 1] && plans[0].runUid != plans[i + 1].runUid;
    }
    forall i, j | 0 <= i < j < |rest|
      ensures rest[i].runUid != rest[j].runUid
    {
      assert plans[i + 1].runUid != plans[j + 1].runUid;
    }
  }

  /** Passing the first plan and then some of the rest is passing that many of all. */
  lemma ReachedAfterFirst(w: World, plans: seq<DeletePlan>, buried: nat, cleared: nat, removed: nat)
    requires plans != [] && removed <= cleared <= buried <= |plans| - 1
    ensures Reached(Reached(w, [plans[0]], 1, 1, 1), plans[1..], buried, cleared, removed)
         == Reached(w, plans, buried + 1, cleared + 1, removed + 1)
  {
    var p, rest := plans[0], plans[1..];
    OfOne(p);
    assert [p][..1] == [p];
    assert plans[..buried + 1][1..] == rest[..buried];
    assert plans[..cleared + 1][1..] == rest[..cleared];
    assert plans[..removed + 1][1..] == rest[..removed];
    DirsTwice(w.sources, DirsOf(p), AllDirs(rest[..removed]));
    PlacesTwice(w.vault, PlacesOf(p), AllPlaces(rest[..cleared]));
    assert w.links - {LinkOf(p)} - AllLinks(rest[..cleared]) == w.links - ({LinkOf(p)} + AllLinks(rest[..cleared]));
    assert w.lines + NewLines([p]) + NewLines(rest[..buried]) == w.lines + (NewLines([p]) + NewLines(rest[..buried]));
  }

  /** How many of `n` plans have passed their stage number `stage`. */
  function Passed(stages: nat, stage: nat, n: nat): (r: nat)
    requires 1 <= stage <= 3
    ensures r <= n
  {
    if n == 0 || stages < stage then 0 else 1 + Passed(if stages > 3 then stages - 3 else 0, stage, n - 1)
  }

  lemma {:induction false} PassedInOrder(stages: nat, n: nat)
    ensures Passed(stages, 3, n) <= Passed(stages, 2, n) <= Passed(stages, 1, n)
    decreases n
  {
    if n > 0 { PassedInOrder(if stages > 3 then stages - 3 else 0, n - 1); }
  }

  lemma {:induction false} AllPass(stage: nat, n: nat)
    requires 1 <= stage <= 3
    ensures Passed(3 * n, stage, n) == n
    decreases n
  {
    if n > 1 { AllPass(stage, n - 1); }
  }

  /** The repository after so many stages. */
  function After(w: World, plans: seq<DeletePlan>, stages: nat): World {
    PassedInOrder(stages, |plans|);
    Reached(w, plans, Passed(stages, 1, |plans|), Passed(stages, 2, |plans|), Passed(stages, 3, |plans|))
  }

  lemma AfterFirstStages(g: Grammar, repo: string, w: World, plans: seq<DeletePlan>, stages: nat)
    requires plans != [] && Prepared(g, repo, w.lines, plans) && stages <= 3
    ensures Execute(g, w, plans[0], stages) == Ok(After(w, plans, stages))
  {
    var p := plans[0];
    ExecuteOne(g, repo, w, p, stages);
    assert Passed(stages, 1, |plans|) == if stages >= 1 then 1 else 0;
    assert Passed(stages, 2, |plans|) == if stages >= 2 then 1 else 0;
    assert Passed(stages, 3, |plans|) == if stages >= 3 then 1 else 0;
    assert plans[..0] == [p][..0] && plans[..1] == [p][..1];
  }

  lemma AfterMoreStages(w: World, plans: seq<DeletePlan>, stages: nat)
    requires plans != [] && stages > 3
    ensures After(Reached(w, [plans[0]], 1, 1, 1), plans[1..], stages - 3) == After(w, plans, stages)
  {
    var n := |plans|;
    PassedInOrder(stages - 3, n - 1);
    ReachedAfterFirst(w, plans, Passed(stages - 3, 1, n - 1), Passed(stages - 3, 2, n - 1),
        Passed(stages - 3, 3, n - 1));
  }

  /** Where any number of stages leads. */
  lemma {:induction false} StagesReach(g: Grammar, repo: string, w: World, plans: seq<DeletePlan>, stages: nat)
    requires Prepared(g, repo, w.lines, plans)
    ensures ExecuteAll(g, w, plans, stages) == After(w, plans, stages)
    decreases |plans|
  {
    if plans == [] {
      NothingRemoved(w);
      assert plans[..0] == [] && w.links - {} == w.links && w.lines + [] == w.lines;
    } else if stages <= 3 {
      AfterFirstStages(g, repo, w, plans, stages);
    } else {
      var p := plans[0];
      ExecuteOne(g, repo, w, p, 3);
      var after := Reached(w, [p], 1, 1, 1);
      assert Prepared(g, repo, after.lines, plans[1..]) by {
        ReadOne(g, repo, w.lines, p);
        PreparedRest(g, repo, Read(g, repo, w.lines).value, plans);
        assert [p][..1] == [p];
      }
      StagesReach(g, repo, after, plans[1..], stages - 3);
      AfterMoreStages(w, plans, stages);
    }
  }

  /** Where all stages lead. */
  lemma AllStagesReach(g: Grammar, repo: string, w: World, plans: seq<DeletePlan>)
    requires Prepared(g, repo, w.lines, plans)
    ensures ExecuteAll(g, w, plans, 3 * |plans|) == Reached(w, plans, |plans|, |plans|, |plans|)
  {
    StagesReach(g, repo, w, plans, 3 * |plans|);
    AllPass(1, |plans|);
    AllPass(2, |plans|);
    AllPass(3, |plans|);
  }

  function BuriedAll(tombstones: map<string, Tombstone>, plans: seq<DeletePlan>): map<string, Tombstone>
    decreases |plans|
  {
    if plans == [] then tombstones else BuriedAll(BuriedOne(tombstones, plans[0]), plans[1..])
  }

  lemma LinesOfRest(lines: seq<Line>, plans: seq<DeletePlan>)
    requires plans != []
    ensures lines + NewLines(plans) == (lines + NewLines([plans[0]])) + NewLines(plans[1..])
  {
    OfOne(plans[0]);
  }

  /** What the tombstone file says once the plans have been buried. */
  lemma {:induction false} ReadAll(
    g: Grammar, repo: string, lines: seq<Line>, before: map<string, Tombstone>, plans: seq<DeletePlan>)
    requires Read(g, repo, lines) == Ok(before) && PreparedAll(g, repo, before, plans)
    ensures Read(g, repo, lines + NewLines(plans)) == Ok(BuriedAll(before, plans))
    decreases |plans|
  {
    if plans == [] {
      assert lines + [] == lines;
    } else {
      ReadOne(g, repo, lines, plans[0]);
      PreparedRest(g, repo, before, plans);
      ReadAll(g, repo, lines + NewLines([plans[0]]), BuriedOne(before, plans[0]), plans[1..]);
      LinesOfRest(lines, plans);
    }
  }

  /** Burying runs does not touch the tombstone of another. */
  lemma {:induction false} OthersRead(tombstones: map<string, Tombstone>, plans: seq<DeletePlan>, uid: string)
    requires forall p :: p in plans ==> p.runUid != uid
    ensures Existing(BuriedAll(tombstones, plans), uid) == Existing(tombstones, uid)
    decreases |plans|
  {
    if plans != [] {
      assert plans[0] in plans;
      OthersRead(BuriedOne(tombstones, plans[0]), plans[1..], uid);
    }
  }

  /** A buried run has the tombstone of its plan. */
  lemma {:induction false} BuriedRead(
    g: Grammar, repo: string, tombstones: map<string, Tombstone>, plans: seq<DeletePlan>, i: nat)
    requires PreparedAll(g, repo, tombstones, plans) && i < |plans|
    ensures Existing(BuriedAll(tombstones, plans), plans[i].runUid) == Some(plans[i].tombstone)
    decreases |plans|
  {
    var rest := plans[1..];
    PreparedRest(g, repo, tombstones, plans);
    if i == 0 {
      forall p | p in rest
        ensures p.runUid != plans[0].runUid
      {
        var j :| 0 <= j < |rest| && rest[j] == p;
        assert plans[j + 1].runUid != plans[0].runUid;
      }
      OthersRead(BuriedOne(tombstones, plans[0]), rest, plans[0].runUid);
    } else {
      BuriedRead(g, repo, BuriedOne(tombstones, plans[0]), rest, i - 1);
    }
  }

  // Membership

  lemma {:induction false} InAllDirs(plans: seq<DeletePlan>, d: string)
    ensures d in AllDirs(plans) <==> exists p :: p in plans && d in DirsOf(p)
  {
    if plans != [] {
      InAllDirs(plans[1..], d);
      assert plans == [plans[0]] + plans[1..];
    }
  }

  lemma {:induction false} InAllPlaces(plans: seq<DeletePlan>, place: Place)
    ensures place in AllPlaces(plans) <==> exists p :: p in plans && place in PlacesOf(p)
  {
    if plans != [] {
      InAllPlaces(plans[1..], place);
      assert plans == [plans[0]] + plans[1..];
    }
  }

  lemma {:induction false} InAllLinks(plans: seq<DeletePlan>, link: Link)
    ensures link in AllLinks(plans) <==> exists p :: p in plans && link == LinkOf(p)
  {
    if plans != [] {
      InAllLinks(plans[1..], link);
      assert plans == [plans[0]] + plans[1..];
    }
  }

  lemma {:induction false} NewLinesInTwoParts(a: seq<DeletePlan>, b: seq<DeletePlan>)
    ensures NewLines(a + b) == NewLines(a) + NewLines(b)
  {
    if a == [] {
      assert a + b == b;
    } else {
      assert (a + b)[0] == a[0] && (a + b)[1..] == a[1..] + b;
      NewLinesInTwoParts(a[1..], b);
    }
  }
}
