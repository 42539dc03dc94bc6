/** The dataset records (src/data.py): placeholder solutions, the merge of
    solutions and ids into the challenges, and the keys of the one-file-per-task
    layout. A JSON object is a list of (key, value) pairs in insertion order,
    as a Python dict iterates. */
module Data {
  import opened Wrappers
  import opened Text
  import GridParser

  type Grid = GridParser.Grid

  /** A train or test pair: the input grid and, once known, the output grid. */
  datatype Example = Example(input: Grid, output: Option<Grid>)

  /** One challenge record: its train and test pairs and its `id`, when set. */
  datatype Challenge = Challenge(train: seq<Example>, test: seq<Example>, id: Option<string>)

  /** A JSON object of challenges, in key order. */
  type Entries = seq<(string, Challenge)>

  /** The solutions file: for each task, one output grid per test pair. */
  type Solutions = map<string, seq<Grid>>

  /** The keys of a JSON object are distinct. */
  predicate DistinctKeys<V>(d: seq<(string, V)>) {
    forall i, j :: 0 <= i < j < |d| ==> d[i].0 != d[j].0
  }

  // ------------------------------------------------------ build_dummy_solutions

  /** The placeholder solution of one test pair. */
  const DummyGrid: Grid := [[0], [0]]

  /** The placeholder solutions of a task with `n` test pairs. */
  function Dummies(n: nat): (r: seq<Grid>)
    ensures |r| == n && forall i :: 0 <= i < n ==> r[i] == DummyGrid
  {
    seq(n, _ => DummyGrid)
  }

  /** What `build_dummy_solutions` returns, task by task. */
  function DummySolutions(cs: Entries): (r: Solutions)
    decreases |cs|
    ensures |cs| > 0 ==> cs[|cs| - 1].0 in r && r[cs[|cs| - 1].0] == Dummies(|cs[|cs| - 1].1.test|)
  {
    if |cs| == 0 then map[]
    else
      var last := cs[|cs| - 1];
      DummySolutions(cs[..|cs| - 1])[last.0 := Dummies(|last.1.test|)]
  }

  /** The keys of the placeholder solutions are the challenges' keys. */
  lemma {:induction false} DummySolutionsKeys(cs: Entries)
    ensures DummySolutions(cs).Keys == set j | 0 <= j < |cs| :: cs[j].0
    decreases |cs|
  {
    if |cs| > 0 {
      var init := cs[..|cs| - 1];
      DummySolutionsKeys(init);
      var keys := set j | 0 <= j < |cs| :: cs[j].0;
      var initKeys := set j | 0 <= j < |init| :: init[j].0;
      forall x | x in keys ensures x in initKeys + {cs[|cs| - 1].0} {
        var j :| 0 <= j < |cs| && cs[j].0 == x;
        if j < |init| {
          assert init[j].0 == x;
        }
      }
      forall x | x in initKeys ensures x in keys {
        var j :| 0 <= j < |init| && init[j].0 == x;
        assert cs[j].0 == x;
      }
    }
  }

  /** Each task gets one placeholder per test pair, every one `[[0], [0]]`. */
  lemma {:induction false} DummySolutionsValues(cs: Entries)
    requires DistinctKeys(cs)
    ensures forall j :: 0 <= j < |cs| ==> cs[j].0 in DummySolutions(cs)
                                          && DummySolutions(cs)[cs[j].0] == Dummies(|cs[j].1.test|)
    decreases |cs|
  {
    if |cs| > 0 {
      var init := cs[..|cs| - 1];
      DummySolutionsValues(init);
      forall j | 0 <= j < |init| ensures init[j] == cs[j] && init[j].0 != cs[|cs| - 1].0 { }
    }
  }

  /** The nested loops of `build_dummy_solutions`. */
  method BuildDummySolutions(challenges: Entries) returns (solutions: Solutions)
    ensures solutions == DummySolutions(challenges)
  {
    solutions := map[];
    var i := 0;
    while i < |challenges|
      invariant 0 <= i <= |challenges|
      invariant solutions == DummySolutions(challenges[..i])
    {
      assert challenges[..i + 1][..i] == challenges[..i];
      var (challengeId, challenge) := challenges[i];
      var solutionsList: seq<Grid> := [];
      var j := 0;
      while j < |challenge.test|
        invariant 0 <= j <= |challenge.test|
        invariant solutionsList == Dummies(j)
      {
        solutionsList := solutionsList + [DummyGrid];
        j := j + 1;
      }
      solutions := solutions[challengeId := solutionsList];
      i := i + 1;
    }
    assert challenges[..i] == challenges;
  }

  // ------------------------------------------------------- build_challenges

  /** `int(os.environ.get("TOTAL_TASKS", "500"))`: `env` is the variable, when set. */
  function TotalTasks(env: Option<string>): (r: Result<int>)
    ensures r.Ok? <==> ParseInt(if env.Some? then env.value else "500").Some?
    ensures r.Err? ==> r.error.cls == ValueError
  {
    var s := if env.Some? then env.value else "500";
    match ParseInt(s)
    case Some(n) => Ok(n)
    case None => Err(GridParser.IntError(s))
  }

  /** Python's `==` between an `int` and a `str`: never equal. */
  predicate IntEqualsStr(n: int, s: string) {
    false
  }

  /** The test pairs of a task with the solutions attached, pair by pair. */
  function WithOutputs(test: seq<Example>, sol: seq<Grid>): (r: seq<Example>)
    requires |test| <= |sol|
    ensures |r| == |test|
    ensures forall i :: 0 <= i < |test| ==> r[i] == Example(test[i].input, Some(sol[i]))
  {
    seq(|test|, i requires 0 <= i < |test| => Example(test[i].input, Some(sol[i])))
  }

  /** The inner loop and the `id` assignment for one task: `solutions_d[k]`
      is looked up only when there is a test pair, and raises a KeyError when
      the task has no solutions, an IndexError when it has too few. */
  function MergeChallenge(key: string, c: Challenge, sols: Solutions): (r: Result<Challenge>)
    ensures r.Ok? <==> |c.test| == 0 || (key in sols && |c.test| <= |sols[key]|)
    ensures r.Err? ==> r.error.cls == (if key in sols then IndexError else KeyError)
  {
    if |c.test| == 0 then Ok(Challenge(c.train, c.test, Some(key)))
    else if key !in sols then Err(Error(KeyError, "'" + key + "'"))
    else if |sols[key]| < |c.test| then Err(Error(IndexError, "list index out of range"))
    else Ok(Challenge(c.train, WithOutputs(c.test, sols[key]), Some(key)))
  }

  /** One round of the outer loop: the task merged, then `TOTAL_TASKS` read. */
  function MergeRound(entry: (string, Challenge), sols: Solutions, env: Option<string>): (r: Result<(string, Challenge)>)
    ensures r.Ok? <==> MergeChallenge(entry.0, entry.1, sols).Ok? && TotalTasks(env).Ok?
    ensures r.Ok? ==> r.value == (entry.0, MergeChallenge(entry.0, entry.1, sols).value)
    ensures MergeChallenge(entry.0, entry.1, sols).Err? ==> r == Err(MergeChallenge(entry.0, entry.1, sols).error)
  {
    var c :- MergeChallenge(entry.0, entry.1, sols);
    var _ :- TotalTasks(env);
    Ok((entry.0, c))
  }

  function MergeRounds(cs: Entries, sols: Solutions, env: Option<string>): (r: seq<Result<(string, Challenge)>>)
    ensures |r| == |cs| && forall j :: 0 <= j < |cs| ==> r[j] == MergeRound(cs[j], sols, env)
  {
    seq(|cs|, j requires 0 <= j < |cs| => MergeRound(cs[j], sols, env))
  }

  /** The merge loop of `build_challenges`: every task in order, or the first
      exception raised. */
  function Merge(cs: Entries, sols: Solutions, env: Option<string>): (r: Result<Entries>)
    ensures r.Ok? ==> |r.value| == |cs|
  {
    Collect(MergeRounds(cs, sols, env))
  }

  /** `build_challenges` once the files are read: `solutions` is the
      solutions file, or `None` for placeholder solutions. */
  function BuildChallenges(challenges: Entries, solutions: Option<Solutions>, env: Option<string>): (r: Result<Entries>)
    ensures r.Ok? ==> |r.value| == |challenges|
  {
    Merge(challenges, if solutions.Some? then solutions.value else DummySolutions(challenges), env)
  }

  /** The merge succeeds exactly when every task with a test pair has enough
      solutions and, for a non-empty object, `TOTAL_TASKS` is an integer;
      otherwise it raises one of the three exceptions. */
  lemma MergeSucceeds(cs: Entries, sols: Solutions, env: Option<string>)
    ensures Merge(cs, sols, env).Ok? <==>
              (|cs| == 0 || TotalTasks(env).Ok?)
              && forall j :: 0 <= j < |cs| ==> MergeChallenge(cs[j].0, cs[j].1, sols).Ok?
    ensures Merge(cs, sols, env).Err? ==> Merge(cs, sols, env).error.cls in {KeyError, IndexError, ValueError}
  {
    var rs := MergeRounds(cs, sols, env);
    if |cs| > 0 && TotalTasks(env).Err? {
      assert rs[0].Err?;
    }
    if Merge(cs, sols, env).Err? {
      var k :| 0 <= k < |rs| && rs[k] == Err(Merge(cs, sols, env).error);
      assert MergeRound(cs[k], sols, env).Err?;
    }
  }

  /** After the merge every task keeps its key and position, its `id` is its
      key, its train pairs are unchanged, and test pair `i` keeps its input
      and has output `solutions_d[k][i]`. The `TOTAL_TASKS` break never fires. */
  lemma MergeOutputs(cs: Entries, sols: Solutions, env: Option<string>)
    requires Merge(cs, sols, env).Ok?
    ensures var out := Merge(cs, sols, env).value;
            |out| == |cs|
            && forall j :: 0 <= j < |cs| ==>
                 && out[j].0 == cs[j].0
                 && out[j].1.id == Some(cs[j].0)
                 && out[j].1.train == cs[j].1.train
                 && |out[j].1.test| == |cs[j].1.test|
                 && forall i :: 0 <= i < |cs[j].1.test| ==>
                      (cs[j].0 in sols && i < |sols[cs[j].0]|
                       && out[j].1.test[i] == Example(cs[j].1.test[i].input, Some(sols[cs[j].0][i])))
  {
    var rs := MergeRounds(cs, sols, env);
    forall j | 0 <= j < |cs|
      ensures MergeChallenge(cs[j].0, cs[j].1, sols).Ok?
      ensures Merge(cs, sols, env).value[j] == (cs[j].0, MergeChallenge(cs[j].0, cs[j].1, sols).value)
    {
      assert rs[j].Ok?;
    }
  }

  /** With placeholder solutions the merge raises nothing but the
      `TOTAL_TASKS` ValueError, and every output is `[[0], [0]]`. */
  lemma DummyMerge(cs: Entries, env: Option<string>)
    requires DistinctKeys(cs) && TotalTasks(env).Ok?
    ensures BuildChallenges(cs, None, env).Ok?
    ensures var out := BuildChallenges(cs, None, env).value;
            forall j, i :: 0 <= j < |cs| && 0 <= i < |cs[j].1.test| ==> out[j].1.test[i].output == Some(DummyGrid)
  {
    var sols := DummySolutions(cs);
    DummySolutionsValues(cs);
    forall j | 0 <= j < |cs| ensures MergeChallenge(cs[j].0, cs[j].1, sols).Ok? {
      assert cs[j].0 in sols;
    }
    MergeSucceeds(cs, sols, env);
    MergeOutputs(cs, sols, env);
  }

  /** Without the variable, `TOTAL_TASKS` is 500. */
  lemma TotalTasksDefault()
    ensures TotalTasks(None) == Ok(500)
  {
    ParseIntToString(500);
    assert IntToString(500) == "500";
  }

  /** One round of the inner loop: test pair `i` gets its solution. */
  lemma AttachStep(test: seq<Example>, sol: seq<Grid>, tests: seq<Example>, i: nat)
    requires i < |test| && i < |sol| && |tests| == |test|
    requires forall j :: 0 <= j < i ==> tests[j] == Example(test[j].input, Some(sol[j]))
    requires forall j :: i <= j < |test| ==> tests[j] == test[j]
    ensures var next := tests[i := Example(tests[i].input, Some(sol[i]))];
            && (forall j :: 0 <= j < i + 1 ==> next[j] == Example(test[j].input, Some(sol[j])))
            && (forall j :: i + 1 <= j < |test| ==> next[j] == test[j])
  {
  }

  /** The body of the outer loop of `build_challenges` for task `key`: the
      inner loop sets `val["output"] = solutions_d[k][i]` on each test pair,
      then `v["id"] = k`. */
  method MergeTask(key: string, v: Challenge, solutionsD: Solutions) returns (r: Result<Challenge>)
    ensures r == MergeChallenge(key, v, solutionsD)
  {
    var tests := v.test;
    var i := 0;
    while i < |v.test|
      invariant 0 <= i <= |v.test| && |tests| == |v.test|
      invariant i > 0 ==> key in solutionsD && i <= |solutionsD[key]|
      invariant forall j :: 0 <= j < i ==> tests[j] == Example(v.test[j].input, Some(solutionsD[key][j]))
      invariant forall j :: i <= j < |v.test| ==> tests[j] == v.test[j]
    {
      if key !in solutionsD {
        return Err(Error(KeyError, "'" + key + "'"));
      }
      if i >= |solutionsD[key]| {
        return Err(Error(IndexError, "list index out of range"));
      }
      AttachStep(v.test, solutionsD[key], tests, i);
      tests := tests[i := Example(tests[i].input, Some(solutionsD[key][i]))];
      i := i + 1;
    }
    if |v.test| > 0 {
      assert tests == WithOutputs(v.test, solutionsD[key]);
    }
    r := Ok(Challenge(v.train, tests, Some(key)));
  }

  /** The merge loop of `build_challenges` (lines 35-40), updating the
      challenges object in place, then the `TOTAL_TASKS` comparison. */
  method MergeLoop(challenges: Entries, solutionsD: Solutions, env: Option<string>) returns (r: Result<Entries>)
    ensures r == Merge(challenges, solutionsD, env)
  {
    var rs := MergeRounds(challenges, solutionsD, env);
    var challengesJ := challenges;
    var k := 0;
    while k < |challengesJ|
      invariant 0 <= k <= |challenges| && |challengesJ| == |challenges|
      invariant Collect(rs[..k]).Ok?
      invariant challengesJ == Collect(rs[..k]).value + challenges[k..]
    {
      var (key, v) := challengesJ[k];
      assert (key, v) == challenges[k];
      var merged := MergeTask(key, v, solutionsD);
      if merged.Err? {
        r := Err(merged.error);
        CollectFails(rs, k, r.error);
        return;
      }
      var totalTasks := TotalTasks(env);
      if totalTasks.Err? {
        r := Err(totalTasks.error);
        CollectFails(rs, k, r.error);
        return;
      }
      assert rs[k] == Ok((key, merged.value));
      MergeAdvance(challenges, rs, k, challengesJ, (key, merged.value));
      challengesJ := challengesJ[k := (key, merged.value)];
      k := k + 1;
      if IntEqualsStr(totalTasks.value, key) {
        break;
      }
    }
    assert rs[..k] == rs && challenges[k..] == [];
    assert challengesJ == Collect(rs).value;
    r := Ok(challengesJ);
  }

  /** A merged task replaces its original in place. */
  lemma MergeAdvance(cs: Entries, rs: seq<Result<(string, Challenge)>>, k: nat, d: Entries, e: (string, Challenge))
    requires k < |cs| == |rs| && Collect(rs[..k]).Ok? && rs[k] == Ok(e)
    requires d == Collect(rs[..k]).value + cs[k..]
    ensures Collect(rs[..k + 1]).Ok?
    ensures d[k := e] == Collect(rs[..k + 1]).value + cs[k + 1..]
  {
    CollectStep(rs, k);
    assert cs[k..] == [cs[k]] + cs[k + 1..];
  }

  /** `build_challenges` after the files are read. */
  method BuildChallengesFrom(challengesJ: Entries, solutions: Option<Solutions>, env: Option<string>)
    returns (r: Result<Entries>)
    ensures r == BuildChallenges(challengesJ, solutions, env)
  {
    var solutionsD;
    if solutions.Some? {
      solutionsD := solutions.value;
    } else {
      solutionsD := BuildDummySolutions(challengesJ);
    }
    r := MergeLoop(challengesJ, solutionsD, env);
  }

  // ---------------------------------------------------- build_challenges_v2

  /** A directory entry: its name, whether it is a regular file, and the
      challenge its JSON holds. */
  datatype FileEntry = FileEntry(name: string, isFile: bool, content: Challenge)

  /** `PurePath.suffix`: from the last `.` on, unless that dot starts the name
      or ends it. */
  function Suffix(name: string): (r: string)
    ensures r == "" || (1 < |r| < |name| && r[0] == '.' && r == name[|name| - |r|..])
  {
    match FindLast(name, ".", 0)
    case Some(i) => if 0 < i < |name| - 1 then name[i..] else ""
    case None => ""
  }

  /** `PurePath.stem`: the name without its suffix. */
  function Stem(name: string): (r: string)
    ensures r + Suffix(name) == name
  {
    match FindLast(name, ".", 0)
    case Some(i) => if 0 < i < |name| - 1 then name[..i] else name
    case None => name
  }

  /** A name has the suffix `.json` exactly when it is longer than `.json`
      and ends with it, and then its stem is the rest. */
  lemma JsonSuffix(name: string)
    ensures Suffix(name) == ".json" <==> |name| > 5 && name[|name| - 5..] == ".json"
    ensures Suffix(name) == ".json" ==> Stem(name) + ".json" == name
  {
    var n := |name|;
    if n > 5 && name[n - 5..] == ".json" {
      assert OccursAt(name, ".", n - 5) by { assert name[n - 5..n - 4] == name[n - 5..][..1]; }
      forall j: nat | n - 5 < j ensures !OccursAt(name, ".", j) {
        if j < n {
          assert name[j..j + 1] == [name[j]];
          assert name[j] == name[n - 5..][j - (n - 5)];
        }
      }
      assert FindLast(name, ".", 0) == Some(n - 5);
    }
    match FindLast(name, ".", 0)
    case Some(i) =>
      if 0 < i < n - 1 {
        assert name[..i] + name[i..] == name;
      }
    case None =>
  }

  predicate IsJsonFile(f: FileEntry) {
    f.isFile && Suffix(f.name) == ".json"
  }

  /** `d[k] = v` on a Python dict: an existing key keeps its place, a new one goes last. */
  function DictSet<V>(d: seq<(string, V)>, k: string, v: V): (r: seq<(string, V)>)
    decreases |d|
    ensures (exists p :: 0 <= p < |d| && d[p].0 == k) ==> |r| == |d|
    ensures (forall p :: 0 <= p < |d| ==> d[p].0 != k) ==> r == d + [(k, v)]
    ensures forall p :: 0 <= p < |r| ==> (r[p].0 == k && r[p].1 == v) || (p < |d| && r[p] == d[p])
  {
    if |d| == 0 then [(k, v)]
    else if d[0].0 == k then [(k, v)] + d[1..]
    else [d[0]] + DictSet(d[1..], k, v)
  }

  /** What the loop of `build_challenges_v2` builds from the sorted listing. */
  function ChallengesV2(files: seq<FileEntry>): (r: seq<(string, Challenge)>)
    decreases |files|
  {
    if |files| == 0 then []
    else
      var f := files[|files| - 1];
      var rest := ChallengesV2(files[..|files| - 1]);
      if IsJsonFile(f) then
        var key := Stem(f.name);
        DictSet(rest, key, Challenge(f.content.train, f.content.test, Some(key)))
      else rest
  }

  /** Every record of the v2 object has its key as `id`, and every key is the
      stem of a `.json` regular file of the listing. */
  lemma {:induction false} ChallengesV2Ids(files: seq<FileEntry>)
    ensures forall p :: 0 <= p < |ChallengesV2(files)| ==>
              ChallengesV2(files)[p].1.id == Some(ChallengesV2(files)[p].0)
              && exists q :: 0 <= q < |files| && IsJsonFile(files[q]) && Stem(files[q].name) == ChallengesV2(files)[p].0
    decreases |files|
  {
    if |files| > 0 {
      var init := files[..|files| - 1];
      var f := files[|files| - 1];
      ChallengesV2Ids(init);
      var d, r := ChallengesV2(init), ChallengesV2(files);
      forall p | 0 <= p < |r|
        ensures r[p].1.id == Some(r[p].0)
        ensures exists q :: 0 <= q < |files| && IsJsonFile(files[q]) && Stem(files[q].name) == r[p].0
      {
        if IsJsonFile(f) && r[p].0 == Stem(f.name) && r[p].1 == Challenge(f.content.train, f.content.test, Some(Stem(f.name))) {
          assert IsJsonFile(files[|files| - 1]);
        } else {
          assert p < |d| && r[p] == d[p];
          var q :| 0 <= q < |init| && IsJsonFile(init[q]) && Stem(init[q].name) == d[p].0;
          assert files[q] == init[q];
        }
      }
    }
  }

  /** The `.json` regular files of the listing, keyed by stem, in order. */
  function JsonEntries(files: seq<FileEntry>): seq<(string, Challenge)>
    decreases |files|
  {
    if |files| == 0 then []
    else
      var f := files[|files| - 1];
      JsonEntries(files[..|files| - 1])
        + if IsJsonFile(f) then [(Stem(f.name), Challenge(f.content.train, f.content.test, Some(Stem(f.name))))] else []
  }

  /** The keys of the `.json` entries are stems of files of the listing. */
  lemma {:induction false} JsonEntriesKeys(files: seq<FileEntry>)
    ensures forall p :: 0 <= p < |JsonEntries(files)| ==>
              exists q :: 0 <= q < |files| && IsJsonFile(files[q]) && Stem(files[q].name) == JsonEntries(files)[p].0
    decreases |files|
  {
    if |files| > 0 {
      var init := files[..|files| - 1];
      JsonEntriesKeys(init);
      var d, r := JsonEntries(init), JsonEntries(files);
      var f := files[|files| - 1];
      assert r == d + if IsJsonFile(f) then [(Stem(f.name), Challenge(f.content.train, f.content.test, Some(Stem(f.name))))] else [];
      forall p | 0 <= p < |r|
        ensures exists q :: 0 <= q < |files| && IsJsonFile(files[q]) && Stem(files[q].name) == r[p].0
      {
        if p < |d| {
          assert r[p] == d[p];
          var q :| 0 <= q < |init| && IsJsonFile(init[q]) && Stem(init[q].name) == d[p].0;
          assert files[q] == init[q];
        } else {
          assert IsJsonFile(f) && r[p].0 == Stem(f.name);
        }
      }
      assert forall p :: 0 <= p < |r| ==>
               exists q :: 0 <= q < |files| && IsJsonFile(files[q]) && Stem(files[q].name) == r[p].0;
    } else {
      assert JsonEntries(files) == [];
    }
  }

  /** Two different `.json` names have different stems. */
  lemma StemsDiffer(a: string, b: string)
    requires Suffix(a) == ".json" && Suffix(b) == ".json" && a != b
    ensures Stem(a) != Stem(b)
  {
    JsonSuffix(a);
    JsonSuffix(b);
  }

  /** In a directory names are distinct, so no two `.json` files share a stem:
      the v2 object holds exactly the `.json` regular files, in listing order,
      each keyed by its stem. */
  lemma {:induction false} ChallengesV2Listing(files: seq<FileEntry>)
    requires forall i, j :: 0 <= i < j < |files| ==> files[i].name != files[j].name
    ensures ChallengesV2(files) == JsonEntries(files)
    decreases |files|
  {
    if |files| > 0 {
      var init := files[..|files| - 1];
      var f := files[|files| - 1];
      ChallengesV2Listing(init);
      if IsJsonFile(f) {
        JsonEntriesKeys(init);
        var d := JsonEntries(init);
        forall p | 0 <= p < |d| ensures d[p].0 != Stem(f.name) {
          var q :| 0 <= q < |init| && IsJsonFile(init[q]) && Stem(init[q].name) == d[p].0;
          assert init[q] == files[q];
          StemsDiffer(init[q].name, f.name);
        }
      }
    }
  }

  /** The loop of `build_challenges_v2` (lines 48-55) over the sorted listing. */
  method BuildChallengesV2(files: seq<FileEntry>) returns (challengesJ: seq<(string, Challenge)>)
    ensures challengesJ == ChallengesV2(files)
  {
    challengesJ := [];
    var i := 0;
    while i < |files|
      invariant 0 <= i <= |files|
      invariant challengesJ == ChallengesV2(files[..i])
    {
      assert files[..i + 1][..i] == files[..i];
      var filePath := files[i];
      if filePath.isFile && Suffix(filePath.name) == ".json" {
        var fileChallenge := filePath.content;
        var key := Stem(filePath.name);
        challengesJ := DictSet(challengesJ, key, Challenge(fileChallenge.train, fileChallenge.test, Some(key)));
      }
      i := i + 1;
    }
    assert files[..i] == files;
  }
}
