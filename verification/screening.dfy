/**
  The screening driver: check the bin steps, then for each molecule keep the
  conformers whose fingerprint passes `compare_fp`, fetch and group their
  feature rows, fit-test the groups in order, and report the first fitting
  conformer, if any.

  The fit engine belongs to another library; it enters the model as an
  arbitrary function `fit` from the query and a conformer's features to the
  engine's result, a list of feature indices that is empty when nothing fits.
 */
module Screening {
  import opened Wrappers
  import opened Sequences
  import opened Fingerprint
  import opened Store
  import opened Grouping
  import opened ResultLine

  /** The loaded query model: its bin step, its fingerprint and its features. */
  datatype Query = Query(binStep: real, fp: Fp, features: seq<Feature>)

  /** `fit_model`: the query and a conformer's features to the engine's answer; empty means no fit. */
  type FitEngine = (Query, seq<Feature>) -> seq<nat>

  /** The one error the driver raises. */
  datatype ScreenError = IncompatibleBinStep(queryBinStep: real, dbBinStep: real)

  /**
    What screening one molecule did: the conformers that passed the prefilter,
    whether their feature rows were fetched, the conformers handed to the fit
    engine in order, and the match reported.
   */
  datatype MoleculeRun = MoleculeRun(passed: seq<nat>, fetched: bool, tested: seq<nat>, found: Option<Match>)

  /** The outcome of the fit loop over a molecule's groups. */
  datatype FitRun = FitRun(tested: seq<nat>, found: Option<Match>)

  /** The molecule names of a list of matches, in order. */
  function MatchNames(ms: seq<Match>): (names: seq<string>)
    ensures |names| == |ms|
    ensures forall k :: 0 <= k < |ms| ==> names[k] == ms[k].molName
  {
    seq(|ms|, k requires 0 <= k < |ms| => ms[k].molName)
  }

  /**
    The prefilter: the ids of the conformers among `rows` whose
    fingerprint passes `compare_fp` against the query's, in row order.
   */
  function Prefilter(queryFp: Fp, rows: seq<ConformerRow>): (ids: seq<nat>)
    ensures |ids| <= |rows|
    ensures forall c :: c in ids <==> exists r :: r in rows && r.confId == c && CompareFp(queryFp, r.fp)
  {
    if |rows| == 0 then []
    else
      var rest := Prefilter(queryFp, rows[1..]);
      assert forall r :: r in rows <==> r == rows[0] || r in rows[1..];
      if CompareFp(queryFp, rows[0].fp) then [rows[0].confId] + rest else rest
  }

  /**
    The fit loop over a molecule's groups: fit-test each group in order and stop at
    the first truthy (non-empty) result, which becomes the molecule's match.
   */
  function FirstFit(q: Query, fit: FitEngine, molName: string, groups: seq<Group>): (run: FitRun)
    ensures |run.tested| <= |groups|
    ensures run.found.Some? ==> run.found.value.molName == molName && run.found.value.fit != []
  {
    if |groups| == 0 then FitRun([], None)
    else
      var res := fit(q, groups[0].features);
      if res != [] then
        FitRun([groups[0].confId], Some(Match(molName, groups[0].confId, res)))
      else
        var rest := FirstFit(q, fit, molName, groups[1..]);
        FitRun([groups[0].confId] + rest.tested, rest.found)
  }

  /** The fit loop tests a prefix of the groups: all of them when nothing fits, at least one when something does. */
  lemma {:induction false} FirstFitTestsPrefix(q: Query, fit: FitEngine, molName: string, groups: seq<Group>)
    ensures var run := FirstFit(q, fit, molName, groups);
            && run.tested == Keys(groups)[..|run.tested|]
            && (run.found.None? ==> run.tested == Keys(groups))
            && (run.found.Some? ==> |run.tested| > 0)
  {
    if |groups| > 0 && fit(q, groups[0].features) == [] {
      FirstFitTestsPrefix(q, fit, molName, groups[1..]);
      assert Keys(groups) == [groups[0].confId] + Keys(groups[1..]);
    }
  }

  /** Every group tested before the last one, and the last one too when nothing fits, failed the fit. */
  lemma {:induction false} FirstFitEarlierFailed(q: Query, fit: FitEngine, molName: string, groups: seq<Group>)
    ensures var run := FirstFit(q, fit, molName, groups);
            forall i :: 0 <= i < |run.tested| && (run.found.None? || i < |run.tested| - 1) ==>
              fit(q, groups[i].features) == []
  {
    if |groups| > 0 && fit(q, groups[0].features) == [] {
      var tail := groups[1..];
      FirstFitEarlierFailed(q, fit, molName, tail);
      var rest := FirstFit(q, fit, molName, tail);
      var run := FirstFit(q, fit, molName, groups);
      assert run.tested == [groups[0].confId] + rest.tested && run.found == rest.found;
      forall i | 0 <= i < |run.tested| && (run.found.None? || i < |run.tested| - 1)
        ensures fit(q, groups[i].features) == []
      {
        if i > 0 {
          assert groups[i] == tail[i - 1];
        }
      }
    }
  }

  /** A reported match is the last group tested, with that group's fit result. */
  lemma {:induction false} FirstFitMatchIsLast(q: Query, fit: FitEngine, molName: string, groups: seq<Group>)
    ensures var run := FirstFit(q, fit, molName, groups);
            run.found.Some? ==>
              && |run.tested| > 0
              && var g := groups[|run.tested| - 1];
              && run.found.value == Match(molName, g.confId, fit(q, g.features))
  {
    if |groups| > 0 && fit(q, groups[0].features) == [] {
      var tail := groups[1..];
      FirstFitMatchIsLast(q, fit, molName, tail);
      var rest := FirstFit(q, fit, molName, tail);
      if rest.found.Some? {
        assert groups[|rest.tested|] == tail[|rest.tested| - 1];
      }
    }
  }

  /**
    The trace of a fit loop that stops at its first success, over the
    conformers of `order` with their feature rows from the database: the
    conformers tested are a prefix of `order`; every one but a reported last
    one failed the fit; a reported match is the last one tested, with its
    fit result; with no match the whole of `order` was tested.
   */
  predicate FirstSuccessTrace(db: Db, q: Query, fit: FitEngine, molName: string, order: seq<nat>, tested: seq<nat>, found: Option<Match>)
  {
    && |tested| <= |order| && tested == order[..|tested|]
    && (found.None? ==> tested == order)
    && (forall i :: 0 <= i < |tested| && (found.None? || i < |tested| - 1) ==>
          fit(q, FeaturesOf(db.coords, tested[i])) == [])
    && (found.Some? ==>
          && |tested| > 0
          && found.value == Match(molName, tested[|tested| - 1], fit(q, FeaturesOf(db.coords, tested[|tested| - 1]))))
  }

  /**
    The order in which a molecule's conformers reach the fit engine: the
    order in which the fetched feature rows first mention them.
   */
  function VisitOrder(db: Db, passed: seq<nat>): (order: seq<nat>)
    ensures NoDups(order)
    ensures forall c :: c in order <==> c in passed && FeaturesOf(db.coords, c) != []
  {
    var rows := CoordsOf(db.coords, passed);
    forall c ensures c in Keys(GroupByConfId(rows)) <==> c in passed && FeaturesOf(db.coords, c) != [] {
      VisitedIffFetched(db, passed, c);
    }
    Keys(GroupByConfId(rows))
  }

  /** A conformer has a group exactly when it passed and has feature rows. */
  lemma VisitedIffFetched(db: Db, passed: seq<nat>, c: nat)
    ensures c in Keys(GroupByConfId(CoordsOf(db.coords, passed))) <==> c in passed && FeaturesOf(db.coords, c) != []
  {
    var rows := CoordsOf(db.coords, passed);
    var keys := Keys(GroupByConfId(rows));
    var column := ConfIdColumn(rows);
    assert keys == Distinct(column);
    CoordsOfFeatures(db.coords, passed, c);
    if c in keys {
      assert c in column;
      var k :| 0 <= k < |rows| && column[k] == c;
      assert rows[k] in rows;
      assert c in passed;
      FeaturesOfPresent(rows, k);
    }
    if c in passed && FeaturesOf(db.coords, c) != [] {
      if c !in column {
        FeaturesOfAbsent(rows, c);
      }
    }
  }

  /**
    The body of the molecule loop: prefilter the molecule's conformers, and
    only when some pass, fetch their feature rows, group them and run the fit
    loop. Whatever it reports is a match for this molecule with a truthy
    (non-empty) fit result.
   */
  function ScreenMolecule(db: Db, q: Query, fit: FitEngine, molName: string): (run: MoleculeRun)
    ensures run.fetched <==> |run.passed| > 0
    ensures !run.fetched ==> run.tested == [] && run.found == None
    ensures run.found.Some? ==> run.found.value.molName == molName && run.found.value.fit != []
  {
    var passed := Prefilter(q.fp, ConformersOf(db.conformers, molName));
    if |passed| == 0 then
      MoleculeRun(passed, false, [], None)
    else
      var r := FirstFit(q, fit, molName, GroupByConfId(CoordsOf(db.coords, passed)));
      MoleculeRun(passed, true, r.tested, r.found)
  }

  /**
    The prefilter reads only the conformer table, and a molecule none of whose
    conformers pass never looks at the feature coordinates: replacing the
    coordinate table changes nothing about screening it.
   */
  lemma NoFeatureLookupWithoutPassing(db: Db, q: Query, fit: FitEngine, molName: string, coords: seq<CoordRow>)
    ensures ScreenMolecule(db.(coords := coords), q, fit, molName).passed == ScreenMolecule(db, q, fit, molName).passed
    ensures |ScreenMolecule(db, q, fit, molName).passed| == 0 ==>
              ScreenMolecule(db.(coords := coords), q, fit, molName) == ScreenMolecule(db, q, fit, molName)
  {
  }

  /**
    The conformers a molecule passes on are exactly its conformers whose
    fingerprint passes `compare_fp` against the query's.
   */
  lemma MoleculePrefilter(db: Db, q: Query, fit: FitEngine, molName: string)
    ensures forall c :: c in ScreenMolecule(db, q, fit, molName).passed <==>
              exists r :: r in db.conformers && r.molName == molName && r.confId == c && CompareFp(q.fp, r.fp)
  {
  }

  /**
    First match wins: the conformers handed to the fit engine are a prefix of
    the visiting order, each with exactly its own feature rows from the
    database, and the loop stops at the first success.
   */
  lemma MoleculeFirstMatchWins(db: Db, q: Query, fit: FitEngine, molName: string)
    ensures var run := ScreenMolecule(db, q, fit, molName);
            FirstSuccessTrace(db, q, fit, molName, VisitOrder(db, run.passed), run.tested, run.found)
  {
    var run := ScreenMolecule(db, q, fit, molName);
    var passed := Prefilter(q.fp, ConformersOf(db.conformers, molName));
    assert run.passed == passed;
    if |passed| > 0 {
      FitRunOnDb(db, q, fit, molName, passed);
    } else {
      assert VisitOrder(db, passed) == [];
    }
  }

  /** The fit loop over the fetched groups, stated in terms of the database's own feature rows. */
  lemma FitRunOnDb(db: Db, q: Query, fit: FitEngine, molName: string, passed: seq<nat>)
    ensures var run := FirstFit(q, fit, molName, GroupByConfId(CoordsOf(db.coords, passed)));
            FirstSuccessTrace(db, q, fit, molName, VisitOrder(db, passed), run.tested, run.found)
  {
    var groups := GroupByConfId(CoordsOf(db.coords, passed));
    GroupsHoldDbFeatures(db, passed);
    FirstFitOverDbGroups(db, q, fit, molName, groups);
    assert VisitOrder(db, passed) == Keys(groups);
  }

  /** `FirstFit` over groups that each hold their conformer's database feature rows. */
  lemma FirstFitOverDbGroups(db: Db, q: Query, fit: FitEngine, molName: string, groups: seq<Group>)
    requires forall i :: 0 <= i < |groups| ==> groups[i].features == FeaturesOf(db.coords, groups[i].confId)
    ensures var run := FirstFit(q, fit, molName, groups);
            FirstSuccessTrace(db, q, fit, molName, Keys(groups), run.tested, run.found)
  {
    var run := FirstFit(q, fit, molName, groups);
    FirstFitTestsPrefix(q, fit, molName, groups);
    FirstFitEarlierFailed(q, fit, molName, groups);
    FirstFitMatchIsLast(q, fit, molName, groups);
    forall i | 0 <= i < |run.tested| ensures run.tested[i] == groups[i].confId {
      assert Keys(groups)[..|run.tested|][i] == Keys(groups)[i];
    }
  }

  /** Each group fetched for the passing conformers holds that conformer's full feature rows from the database. */
  lemma GroupsHoldDbFeatures(db: Db, passed: seq<nat>)
    ensures var groups := GroupByConfId(CoordsOf(db.coords, passed));
            forall i :: 0 <= i < |groups| ==> groups[i].features == FeaturesOf(db.coords, groups[i].confId)
  {
    var groups := GroupByConfId(CoordsOf(db.coords, passed));
    GroupByConfIdFeatures(CoordsOf(db.coords, passed));
    forall i | 0 <= i < |groups| ensures groups[i].features == FeaturesOf(db.coords, groups[i].confId) {
      VisitedIffFetched(db, passed, groups[i].confId);
      CoordsOfFeatures(db.coords, passed, groups[i].confId);
      assert Keys(groups)[i] == groups[i].confId;
    }
  }

  /** With no match, every conformer that passed and has feature rows failed the fit. */
  lemma NoMatchMeansNoFit(db: Db, q: Query, fit: FitEngine, molName: string, c: nat)
    requires ScreenMolecule(db, q, fit, molName).found.None?
    requires c in ScreenMolecule(db, q, fit, molName).passed && FeaturesOf(db.coords, c) != []
    ensures fit(q, FeaturesOf(db.coords, c)) == []
  {
    var run := ScreenMolecule(db, q, fit, molName);
    MoleculeFirstMatchWins(db, q, fit, molName);
    var order := VisitOrder(db, run.passed);
    var i :| 0 <= i < |order| && order[i] == c;
    assert run.tested[i] == c;
  }

  /** The matches present among per-molecule outcomes, in order. */
  function Reported(outcomes: seq<Option<Match>>): (ms: seq<Match>)
    ensures |ms| <= |outcomes|
    ensures forall m :: m in ms <==> Some(m) in outcomes
  {
    if |outcomes| == 0 then []
    else
      var rest := Reported(outcomes[1..]);
      assert forall o :: o in outcomes <==> o == outcomes[0] || o in outcomes[1..];
      match outcomes[0]
      case None => rest
      case Some(m) => [m] + rest
  }

  /** Outcomes reported under their own molecule's name come out in the order of the names. */
  lemma {:induction false} ReportedFollowsNames(outcomes: seq<Option<Match>>, names: seq<string>)
    requires |outcomes| == |names|
    requires forall k :: 0 <= k < |names| && outcomes[k].Some? ==> outcomes[k].value.molName == names[k]
    ensures IsSubsequence(MatchNames(Reported(outcomes)), names)
  {
    if |names| > 0 {
      ReportedFollowsNames(outcomes[1..], names[1..]);
      var rest := Reported(outcomes[1..]);
      if outcomes[0].Some? {
        assert MatchNames([outcomes[0].value] + rest)[1..] == MatchNames(rest);
      }
    }
  }

  /** The per-molecule outcomes of screening each of `names`. */
  function Outcomes(db: Db, q: Query, fit: FitEngine, names: seq<string>): (os: seq<Option<Match>>)
    ensures |os| == |names|
    ensures forall k :: 0 <= k < |names| && os[k].Some? ==> os[k].value.molName == names[k]
  {
    seq(|names|, k requires 0 <= k < |names| => ScreenMolecule(db, q, fit, names[k]).found)
  }

  /**
    The molecule loop over `names`: each molecule contributes its match, if
    any, in the order of `names`. A match is reported exactly when screening
    its molecule found it.
   */
  function ScreenMolecules(db: Db, q: Query, fit: FitEngine, names: seq<string>): (ms: seq<Match>)
    ensures |ms| <= |names|
    ensures IsSubsequence(MatchNames(ms), names)
    ensures forall m :: m in ms <==> exists k :: 0 <= k < |names| && ScreenMolecule(db, q, fit, names[k]).found == Some(m)
  {
    var os := Outcomes(db, q, fit, names);
    var ms := Reported(os);
    ReportedFollowsNames(os, names);
    forall m ensures m in ms <==> exists k :: 0 <= k < |names| && ScreenMolecule(db, q, fit, names[k]).found == Some(m) {
      if m in ms {
        var k :| 0 <= k < |os| && os[k] == Some(m);
        assert ScreenMolecule(db, q, fit, names[k]).found == Some(m);
      }
      if exists k :: 0 <= k < |names| && ScreenMolecule(db, q, fit, names[k]).found == Some(m) {
        var k :| 0 <= k < |names| && ScreenMolecule(db, q, fit, names[k]).found == Some(m);
        assert os[k] == Some(m);
      }
    }
    ms
  }

  /**
    `main` without its I/O: the run fails with `IncompatibleBinStep`, before
    looking at any molecule, exactly when the query's bin step differs from
    the database's. Otherwise it reports at most one match per molecule, in
    the order of the database's molecule names, each one the match screening
    that molecule found; a molecule without a match had no fitting conformer
    among those that passed the prefilter.
   */
  function Screen(db: Db, q: Query, fit: FitEngine): (r: Result<seq<Match>, ScreenError>)
    ensures r.Err? <==> q.binStep != db.binStep
    ensures r.Err? ==> r.error == IncompatibleBinStep(q.binStep, db.binStep)
    ensures r.Ok? ==> NoDups(MatchNames(r.value))
    ensures r.Ok? ==> IsSubsequence(MatchNames(r.value), MoleculeNames(db))
    ensures r.Ok? ==> forall m :: m in r.value ==> ScreenMolecule(db, q, fit, m.molName).found == Some(m)
    ensures r.Ok? ==> forall n :: n in MoleculeNames(db) && n !in MatchNames(r.value) ==>
                                  ScreenMolecule(db, q, fit, n).found == None
  {
    if q.binStep != db.binStep then
      Err(IncompatibleBinStep(q.binStep, db.binStep))
    else
      var names := MoleculeNames(db);
      var ms := ScreenMolecules(db, q, fit, names);
      SubsequenceNoDups(MatchNames(ms), names);
      ReportedAreMoleculeMatches(db, q, fit, names);
      forall n | n in names && n !in MatchNames(ms) ensures ScreenMolecule(db, q, fit, n).found == None {
        UnreportedHadNoMatch(db, q, fit, names, n);
      }
      Ok(ms)
  }

  /** Every reported match is the match its own molecule's screening found. */
  lemma ReportedAreMoleculeMatches(db: Db, q: Query, fit: FitEngine, names: seq<string>)
    ensures forall m :: m in ScreenMolecules(db, q, fit, names) ==> ScreenMolecule(db, q, fit, m.molName).found == Some(m)
  {
    forall m | m in ScreenMolecules(db, q, fit, names) ensures ScreenMolecule(db, q, fit, m.molName).found == Some(m) {
      var k :| 0 <= k < |names| && ScreenMolecule(db, q, fit, names[k]).found == Some(m);
    }
  }

  /** A screened molecule missing from the report had no match. */
  lemma UnreportedHadNoMatch(db: Db, q: Query, fit: FitEngine, names: seq<string>, n: string)
    requires n in names && n !in MatchNames(ScreenMolecules(db, q, fit, names))
    ensures ScreenMolecule(db, q, fit, n).found == None
  {
    var k :| 0 <= k < |names| && names[k] == n;
  }

  /**
    A molecule is reported exactly when at least one of its conformers that
    passed the prefilter and has feature rows fits; however many of them
    fit, screening it yields a single match.
   */
  lemma MatchIffSomeConformerFits(db: Db, q: Query, fit: FitEngine, molName: string)
    ensures var run := ScreenMolecule(db, q, fit, molName);
            run.found.Some? <==>
              exists c :: c in run.passed && FeaturesOf(db.coords, c) != [] && fit(q, FeaturesOf(db.coords, c)) != []
  {
    var run := ScreenMolecule(db, q, fit, molName);
    MoleculeFirstMatchWins(db, q, fit, molName);
    var order := VisitOrder(db, run.passed);
    if run.found.Some? {
      var c := run.tested[|run.tested| - 1];
      assert c == order[|run.tested| - 1];
      assert c in order;
    } else {
      forall c | c in run.passed && FeaturesOf(db.coords, c) != [] ensures fit(q, FeaturesOf(db.coords, c)) == [] {
        NoMatchMeansNoFit(db, q, fit, molName, c);
      }
    }
  }

  /** With an empty query fingerprint every conformer of the molecule passes the prefilter. */
  lemma EmptyQueryKeepsEveryConformer(db: Db, q: Query, fit: FitEngine, molName: string)
    requires q.fp == {}
    ensures forall r :: r in db.conformers && r.molName == molName ==> r.confId in ScreenMolecule(db, q, fit, molName).passed
  {
    MoleculePrefilter(db, q, fit, molName);
    forall r | r in db.conformers && r.molName == molName
      ensures r.confId in ScreenMolecule(db, q, fit, molName).passed
    {
      EmptyQueryPassesAll(r.fp);
    }
  }

  /**
    When `conf_id` is a key of the conformers, a conformer of another
    molecule, or one whose fingerprint fails `compare_fp`, is never handed to
    the fit engine while screening this molecule.
   */
  lemma RejectedNeverTested(db: Db, q: Query, fit: FitEngine, molName: string, r: ConformerRow)
    requires UniqueConfIds(db)
    requires r in db.conformers
    requires r.molName != molName || !CompareFp(q.fp, r.fp)
    ensures r.confId !in ScreenMolecule(db, q, fit, molName).tested
  {
    var run := ScreenMolecule(db, q, fit, molName);
    TestedArePassed(db, q, fit, molName);
    MoleculePrefilter(db, q, fit, molName);
    if r.confId in run.tested {
      var r' :| r' in db.conformers && r'.molName == molName && r'.confId == r.confId && CompareFp(q.fp, r'.fp);
      SameConfIdSameRow(db, r, r');
    }
  }

  /** Every conformer handed to the fit engine passed the prefilter. */
  lemma TestedArePassed(db: Db, q: Query, fit: FitEngine, molName: string)
    ensures var run := ScreenMolecule(db, q, fit, molName);
            forall c :: c in run.tested ==> c in run.passed
  {
    var run := ScreenMolecule(db, q, fit, molName);
    MoleculeFirstMatchWins(db, q, fit, molName);
    var order := VisitOrder(db, run.passed);
    forall c | c in run.tested ensures c in run.passed {
      var i :| 0 <= i < |run.tested| && run.tested[i] == c;
      assert order[i] == c;
    }
  }

  /** When `conf_id` is a key, two conformer rows with the same id are the same row. */
  lemma SameConfIdSameRow(db: Db, r: ConformerRow, r': ConformerRow)
    requires UniqueConfIds(db)
    requires r in db.conformers && r' in db.conformers && r.confId == r'.confId
    ensures r == r'
  {
    var i :| 0 <= i < |db.conformers| && db.conformers[i] == r;
    var j :| 0 <= j < |db.conformers| && db.conformers[j] == r';
    assert !(i < j) && !(j < i);
  }

  /** The text `main` writes: the result lines of the reported matches, or the error it raises. */
  function ScreenOutput(db: Db, q: Query, fit: FitEngine): (r: Result<string, ScreenError>)
    ensures r.Err? <==> q.binStep != db.binStep
    ensures r.Err? ==> r.error == IncompatibleBinStep(q.binStep, db.binStep)
  {
    match Screen(db, q, fit)
    case Err(e) => Err(e)
    case Ok(ms) => Ok(Output(ms))
  }

  /** When no molecule name holds a tab or a newline, every reported match can be written and read back. */
  lemma ReportedWritable(db: Db, q: Query, fit: FitEngine)
    requires q.binStep == db.binStep
    requires forall r :: r in db.conformers ==> '\t' !in r.molName && '\n' !in r.molName
    ensures var ms := Screen(db, q, fit).value;
            forall k :: 0 <= k < |ms| ==> Writable(ms[k]) && '\n' !in ms[k].molName
  {
    var names := MoleculeNames(db);
    var ms := Screen(db, q, fit).value;
    SubsequenceElements(MatchNames(ms), names);
    forall k | 0 <= k < |ms| ensures ms[k].molName in names && ms[k].fit != [] {
      assert ms[k] in ms;
      assert MatchNames(ms)[k] in MatchNames(ms);
    }
    KnownNamesWritable(db, ms);
  }

  /** Matches of listed molecules with non-empty fit results can be written and read back when no name holds a tab or newline. */
  lemma KnownNamesWritable(db: Db, ms: seq<Match>)
    requires forall r :: r in db.conformers ==> '\t' !in r.molName && '\n' !in r.molName
    requires forall k :: 0 <= k < |ms| ==> ms[k].molName in MoleculeNames(db) && ms[k].fit != []
    ensures forall k :: 0 <= k < |ms| ==> Writable(ms[k]) && '\n' !in ms[k].molName
  {
    var names := MoleculeNames(db);
    forall k | 0 <= k < |ms| ensures Writable(ms[k]) && '\n' !in ms[k].molName {
      var j :| 0 <= j < |names| && names[j] == ms[k].molName;
      var r :| r in db.conformers && r.molName == names[j];
    }
  }

  /**
    When no molecule name holds a tab or a newline, the written text
    determines the reported matches: reading it back line by line gives
    them all, in order, with their full fit results.
   */
  lemma OutputDeterminesMatches(db: Db, q: Query, fit: FitEngine)
    requires q.binStep == db.binStep
    requires forall r :: r in db.conformers ==> '\t' !in r.molName && '\n' !in r.molName
    ensures ParseOutput(ScreenOutput(db, q, fit).value) == Some(Screen(db, q, fit).value)
  {
    var ms := Screen(db, q, fit).value;
    ReportedWritable(db, q, fit);
    ParseOutputRoundTrip(ms);
    assert ScreenOutput(db, q, fit).value == Output(ms);
  }
}
