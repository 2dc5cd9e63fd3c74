/** Writers racing to be the first with a value (src/db.rs:379-427, 898-906).

    `record` looks under the read lock and counts there if the value exists;
    otherwise it comes back under the write lock, where it decides whether the
    value is new. A writer told "new" then does the same to the value's entry
    in `_all`, if the namespace is one that counts; a search recorded under
    `_shadow/` does not. Any number of writers take these steps in any order. */
module Racing {
  import opened Sets
  import opened Namespaces
  import opened Attributes

  datatype Cell = Cell(namespace: string, value: string)

  datatype Stage = Ready | Missed | Counting | CountingMissed | Done(isNew: bool)

  datatype Writer = Writer(cell: Cell, stage: Stage)

  /** How often each value was counted in each namespace, `_all` included. */
  type Cells = map<Cell, nat>

  datatype World = World(cells: Cells, writers: map<nat, Writer>)

  datatype Step =
    | Arrive(i: nat, cell: Cell)
    | Look(i: nat)
    | Insert(i: nat)
    | LookInAll(i: nat)
    | InsertInAll(i: nat)

  function InAll(value: string): Cell
  {
    Cell(ALL_NAMESPACE, value)
  }

  predicate At(w: World, i: nat, stage: Stage)
  {
    i in w.writers && w.writers[i].stage == stage
  }

  predicate Enabled(w: World, step: Step)
  {
    match step
    case Arrive(i, cell) => i !in w.writers && cell.namespace != ALL_NAMESPACE
    case Look(i) => At(w, i, Ready)
    case Insert(i) => At(w, i, Missed)
    case LookInAll(i) => At(w, i, Counting)
    case InsertInAll(i) => At(w, i, CountingMissed)
  }

  /** `writers[i]` has done something to `cells` and moves on. */
  function Moves(w: World, i: nat, cells: Cells, stage: Stage): World
    requires i in w.writers
  {
    World(cells, w.writers[i := w.writers[i].(stage := stage)])
  }

  /** What comes after counting a sighting: nothing more, unless the value is
      new to a namespace that counts. */
  function AfterRecord(known: bool, cell: Cell): Stage
  {
    if known then Done(false) else if CountsTowardsConsensus(cell.namespace) then Counting else Done(true)
  }

  function Next(w: World, step: Step): World
    requires Enabled(w, step)
  {
    match step
    case Arrive(i, cell) => w.(writers := w.writers[i := Writer(cell, Ready)])
    case Look(i) =>
      var cell := w.writers[i].cell;
      if cell in w.cells then Moves(w, i, Bumped(w.cells, cell), Done(false)) else Moves(w, i, w.cells, Missed)
    case Insert(i) =>
      var cell := w.writers[i].cell;
      Moves(w, i, Bumped(w.cells, cell), AfterRecord(cell in w.cells, cell))
    case LookInAll(i) =>
      var all := InAll(w.writers[i].cell.value);
      if all in w.cells then Moves(w, i, Bumped(w.cells, all), Done(true)) else Moves(w, i, w.cells, CountingMissed)
    case InsertInAll(i) => Moves(w, i, Bumped(w.cells, InAll(w.writers[i].cell.value)), Done(true))
  }

  // ---------------------------------------------------------------------
  // Counting writers.
  // ---------------------------------------------------------------------

  function Those(writers: map<nat, Writer>, p: Writer -> bool): set<nat>
  {
    set i | i in writers && p(writers[i])
  }

  function One(b: bool): nat { if b then 1 else 0 }

  lemma CountNew(writers: map<nat, Writer>, i: nat, x: Writer, p: Writer -> bool)
    requires i !in writers
    ensures |Those(writers[i := x], p)| == |Those(writers, p)| + One(p(x))
  {
    assert Those(writers[i := x], p) == Those(writers, p) + if p(x) then {i} else {};
  }

  lemma CountMoved(writers: map<nat, Writer>, i: nat, x: Writer, p: Writer -> bool)
    requires i in writers
    ensures |Those(writers[i := x], p)| + One(p(writers[i])) == |Those(writers, p)| + One(p(x))
  {
    var others := writers - {i};
    CountNew(others, i, writers[i], p);
    CountNew(others, i, x, p);
    assert others[i := writers[i]] == writers && others[i := x] == writers[i := x];
  }

  predicate HasRecorded(stage: Stage) { stage != Ready && stage != Missed }

  predicate ToldNew(stage: Stage) { stage == Counting || stage == CountingMissed || stage == Done(true) }

  predicate OwesTally(stage: Stage) { stage == Counting || stage == CountingMissed }

  /** Everyone who came to write to `cell`. */
  function Writing(cell: Cell): Writer -> bool
  {
    (x: Writer) => x.cell == cell
  }

  /** Writers whose sighting in `cell` has been counted. */
  function Recorders(cell: Cell): Writer -> bool
  {
    (x: Writer) => x.cell == cell && HasRecorded(x.stage)
  }

  /** Writers told that theirs was the first in `cell`. */
  function Firsts(cell: Cell): Writer -> bool
  {
    (x: Writer) => x.cell == cell && ToldNew(x.stage)
  }

  /** Writers that have yet to bring `_all` up to date for `value`. */
  function Debtors(value: string): Writer -> bool
  {
    (x: Writer) => x.cell.value == value && OwesTally(x.stage)
  }

  /** Namespaces holding `value` that count towards consensus. */
  function Holding(cells: Cells, value: string): set<string>
  {
    set c | c in cells && CountsTowardsConsensus(c.namespace) && c.value == value :: c.namespace
  }

  // ---------------------------------------------------------------------
  // The invariant.
  // ---------------------------------------------------------------------

  /** Of one cell: every sighting counted, and one writer told "new" if it is. */
  ghost predicate CellSound(start: Cells, w: World, cell: Cell)
  {
    cell.namespace != ALL_NAMESPACE ==>
      && Entry(w.cells, cell) == Entry(start, cell) + |Those(w.writers, Recorders(cell))|
      && (cell in start ==> cell in w.cells)
      && |Those(w.writers, Firsts(cell))| == One(cell in w.cells && cell !in start)
  }

  /** Of one value: `_all` and what is still owed to it make up the number of
      namespaces holding it. */
  ghost predicate TallySound(w: World, value: string)
  {
    Entry(w.cells, InAll(value)) + |Those(w.writers, Debtors(value))| == |Holding(w.cells, value)|
  }

  ghost predicate WritersSound(w: World)
  {
    forall i :: i in w.writers ==> w.writers[i].cell.namespace != ALL_NAMESPACE
  }

  ghost predicate Inv(start: Cells, w: World)
  {
    && WritersSound(w)
    && (forall cell :: CellSound(start, w, cell))
    && (forall value :: TallySound(w, value))
  }

  /** Counting in `_all` is no namespace's business. */
  lemma HoldingAll(cells: Cells, added: string, value: string)
    ensures Holding(Bumped(cells, InAll(added)), value) == Holding(cells, value)
  {
    var after := Bumped(cells, InAll(added));
    forall n ensures n in Holding(after, value) <==> n in Holding(cells, value) {
      HoldingHas(cells, value, n);
      HoldingHas(after, value, n);
    }
  }

  lemma HoldingHas(cells: Cells, value: string, n: string)
    ensures n in Holding(cells, value) <==> CountsTowardsConsensus(n) && Cell(n, value) in cells
  {
    if CountsTowardsConsensus(n) && Cell(n, value) in cells { assert Cell(n, value).namespace == n; }
  }

  lemma HoldingBump(cells: Cells, cell: Cell, value: string)
    requires cell.namespace != ALL_NAMESPACE
    ensures |Holding(Bumped(cells, cell), value)| ==
            |Holding(cells, value)| +
            One(cell.value == value && cell !in cells && CountsTowardsConsensus(cell.namespace))
  {
    var after := Bumped(cells, cell);
    var gains := cell.value == value && CountsTowardsConsensus(cell.namespace);
    forall n ensures n in Holding(after, value) <==> n in Holding(cells, value) || (gains && n == cell.namespace) {
      HoldingHas(cells, value, n);
      HoldingHas(after, value, n);
    }
    HoldingHas(cells, value, cell.namespace);
    assert Holding(after, value) == Holding(cells, value) + if gains then {cell.namespace} else {};
    assert gains && cell in cells ==> Holding(after, value) == Holding(cells, value);
  }

  // ---------------------------------------------------------------------
  // Every step keeps it.
  // ---------------------------------------------------------------------

  lemma ArriveKeeps(start: Cells, w: World, i: nat, cell: Cell)
    requires Inv(start, w) && Enabled(w, Arrive(i, cell))
    ensures Inv(start, Next(w, Arrive(i, cell)))
  {
    var v := Next(w, Arrive(i, cell));
    forall c ensures CellSound(start, v, c) {
      assert CellSound(start, w, c);
      CountNew(w.writers, i, Writer(cell, Ready), Recorders(c));
      CountNew(w.writers, i, Writer(cell, Ready), Firsts(c));
    }
    forall value ensures TallySound(v, value) {
      assert TallySound(w, value);
      CountNew(w.writers, i, Writer(cell, Ready), Debtors(value));
    }
  }

  /** A step that only notes that nothing was found changes no count. */
  lemma MissKeeps(start: Cells, w: World, i: nat, stage: Stage)
    requires Inv(start, w) && i in w.writers
    requires HasRecorded(stage) == HasRecorded(w.writers[i].stage)
    requires ToldNew(stage) == ToldNew(w.writers[i].stage)
    requires OwesTally(stage) == OwesTally(w.writers[i].stage)
    ensures Inv(start, Moves(w, i, w.cells, stage))
  {
    var v := Moves(w, i, w.cells, stage);
    var x := v.writers[i];
    forall c ensures CellSound(start, v, c) {
      assert CellSound(start, w, c);
      CountMoved(w.writers, i, x, Recorders(c));
      CountMoved(w.writers, i, x, Firsts(c));
    }
    forall value ensures TallySound(v, value) {
      assert TallySound(w, value);
      CountMoved(w.writers, i, x, Debtors(value));
    }
  }

  lemma RecordKeepsCell(start: Cells, w: World, i: nat, stage: Stage, c: Cell)
    requires CellSound(start, w, c) && i in w.writers && !HasRecorded(w.writers[i].stage)
    requires stage == AfterRecord(w.writers[i].cell in w.cells, w.writers[i].cell)
    ensures CellSound(start, Moves(w, i, Bumped(w.cells, w.writers[i].cell), stage), c)
  {
    var x := w.writers[i].(stage := stage);
    CountMoved(w.writers, i, x, Recorders(c));
    CountMoved(w.writers, i, x, Firsts(c));
  }

  /** Counting a sighting, told "new" exactly if the value was not there. */
  lemma RecordKeeps(start: Cells, w: World, i: nat, stage: Stage)
    requires Inv(start, w) && i in w.writers && !HasRecorded(w.writers[i].stage)
    requires stage == AfterRecord(w.writers[i].cell in w.cells, w.writers[i].cell)
    ensures Inv(start, Moves(w, i, Bumped(w.cells, w.writers[i].cell), stage))
  {
    var cell := w.writers[i].cell;
    var v := Moves(w, i, Bumped(w.cells, cell), stage);
    var x := v.writers[i];
    forall c ensures CellSound(start, v, c) {
      RecordKeepsCell(start, w, i, stage, c);
    }
    forall value ensures TallySound(v, value) {
      assert TallySound(w, value);
      CountMoved(w.writers, i, x, Debtors(value));
      HoldingBump(w.cells, cell, value);
    }
  }

  /** Paying what is owed to `_all`. */
  lemma TallyKeeps(start: Cells, w: World, i: nat)
    requires Inv(start, w) && i in w.writers && OwesTally(w.writers[i].stage)
    ensures Inv(start, Moves(w, i, Bumped(w.cells, InAll(w.writers[i].cell.value)), Done(true)))
  {
    var added := w.writers[i].cell.value;
    var v := Moves(w, i, Bumped(w.cells, InAll(added)), Done(true));
    var x := v.writers[i];
    forall c ensures CellSound(start, v, c) {
      assert CellSound(start, w, c);
      CountMoved(w.writers, i, x, Recorders(c));
      CountMoved(w.writers, i, x, Firsts(c));
    }
    forall value ensures TallySound(v, value) {
      assert TallySound(w, value);
      CountMoved(w.writers, i, x, Debtors(value));
      HoldingAll(w.cells, added, value);
    }
  }

  lemma StepKeeps(start: Cells, w: World, step: Step)
    requires Inv(start, w) && Enabled(w, step)
    ensures Inv(start, Next(w, step))
  {
    match step
    case Arrive(i, cell) => ArriveKeeps(start, w, i, cell);
    case Look(i) =>
      if w.writers[i].cell in w.cells { RecordKeeps(start, w, i, Done(false)); }
      else { MissKeeps(start, w, i, Missed); }
    case Insert(i) => RecordKeeps(start, w, i, AfterRecord(w.writers[i].cell in w.cells, w.writers[i].cell));
    case LookInAll(i) =>
      if InAll(w.writers[i].cell.value) in w.cells { TallyKeeps(start, w, i); }
      else { MissKeeps(start, w, i, CountingMissed); }
    case InsertInAll(i) => TallyKeeps(start, w, i);
  }

  // ---------------------------------------------------------------------
  // Whole runs.
  // ---------------------------------------------------------------------

  ghost predicate Possible(w: World, steps: seq<Step>)
    decreases |steps|
  {
    |steps| > 0 ==> Enabled(w, steps[0]) && Possible(Next(w, steps[0]), steps[1..])
  }

  ghost function Run(w: World, steps: seq<Step>): World
    requires Possible(w, steps)
    decreases |steps|
  {
    if |steps| == 0 then w else Run(Next(w, steps[0]), steps[1..])
  }

  lemma {:induction false} RunKeeps(start: Cells, w: World, steps: seq<Step>)
    requires Inv(start, w) && Possible(w, steps)
    ensures Inv(start, Run(w, steps))
    decreases |steps|
  {
    if |steps| > 0 {
      StepKeeps(start, w, steps[0]);
      RunKeeps(start, Next(w, steps[0]), steps[1..]);
    }
  }

  /** `_all` is right to begin with. */
  ghost predicate Tallied(cells: Cells)
  {
    forall value :: Entry(cells, InAll(value)) == |Holding(cells, value)|
  }

  lemma StartIsSound(start: Cells)
    requires Tallied(start)
    ensures Inv(start, World(start, map[]))
  {
    var w := World(start, map[]);
    forall c ensures CellSound(start, w, c) {
      assert Those(w.writers, Recorders(c)) == {} && Those(w.writers, Firsts(c)) == {};
    }
    forall value ensures TallySound(w, value) {
      assert Those(w.writers, Debtors(value)) == {};
    }
  }

  /** In every run, however the writers interleave: of all who wrote a value to a
      namespace, one is told it is new if it was not there before and none
      otherwise, and the count has grown by exactly the writers recorded. */
  lemma OneFirstWriter(start: Cells, steps: seq<Step>, cell: Cell)
    requires Tallied(start) && Possible(World(start, map[]), steps) && cell.namespace != ALL_NAMESPACE
    ensures var w := Run(World(start, map[]), steps);
            && |Those(w.writers, Firsts(cell))| == One(cell in w.cells && cell !in start)
            && Entry(w.cells, cell) == Entry(start, cell) + |Those(w.writers, Recorders(cell))|
  {
    StartIsSound(start);
    RunKeeps(start, World(start, map[]), steps);
    assert CellSound(start, Run(World(start, map[]), steps), cell);
  }

  ghost predicate Quiet(w: World)
  {
    forall i :: i in w.writers ==> w.writers[i].stage.Done?
  }

  /** Once every writer is done, every sighting is counted and `_all` is the
      number of namespaces holding the value. */
  lemma QuietTallyIsExact(start: Cells, steps: seq<Step>, value: string)
    requires Tallied(start) && Possible(World(start, map[]), steps) && Quiet(Run(World(start, map[]), steps))
    ensures var w := Run(World(start, map[]), steps);
            && Entry(w.cells, InAll(value)) == |Holding(w.cells, value)|
            && (forall cell: Cell :: cell.namespace != ALL_NAMESPACE ==>
                  Entry(w.cells, cell) == Entry(start, cell) + |Those(w.writers, Writing(cell))|)
  {
    StartIsSound(start);
    RunKeeps(start, World(start, map[]), steps);
    var w := Run(World(start, map[]), steps);
    assert TallySound(w, value);
    assert Those(w.writers, Debtors(value)) == {};
    forall cell: Cell | cell.namespace != ALL_NAMESPACE
      ensures Entry(w.cells, cell) == Entry(start, cell) + |Those(w.writers, Writing(cell))|
    {
      assert CellSound(start, w, cell);
      assert Those(w.writers, Writing(cell)) == Those(w.writers, Recorders(cell));
    }
  }
}
