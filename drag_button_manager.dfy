/** The registry of drag buttons: three maps keyed by button id (buttons, their path managers
    and their definitions), the merge of button configurations, grid layout, the failure
    policy with its delayed recreation, and the aggregate queries.

    The registry-level effect of each operation is a function on `Registry` (definitions and
    scheduled recreations); the class methods are proved to make exactly those transitions
    while keeping the button objects consistent with the maps. */
module DragButtonManagerModel {
  import opened Wrappers
  import opened PathGeometry
  import opened PathManagerModel
  import opened HandleMachine
  import opened DragButtonModel

  // ---------------------------------------------------------------------------
  // Configuration
  // ---------------------------------------------------------------------------

  /** A Partial<DragButtonConfig>: None is an absent field. */
  datatype PartialButtonConfig = PartialButtonConfig(tolerance: Option<real>, maxBackwardMovement: Option<real>, failureTimeoutMs: Option<real>)

  /** The defaultButtonConfig the manager starts from: 60, 0.05, 300. */
  const DefaultButtonFields: PartialButtonConfig := PartialButtonConfig(Some(60.0), Some(0.05), Some(300.0))

  /** One field of an object spread: a present field of the later object wins. */
  function Spread<T>(base: Option<T>, over: Option<T>): Option<T> {
    if over.Some? then over else base
  }

  /** `{...defaults, ...over}`: each field present in `over` overrides the default. */
  function MergeButtonConfig(defaults: PartialButtonConfig, over: Option<PartialButtonConfig>): (c: PartialButtonConfig)
    ensures over.None? ==> c == defaults
    ensures over.Some? && over.value.tolerance.Some? ==> c.tolerance == over.value.tolerance
    ensures over.Some? && over.value.tolerance.None? ==> c.tolerance == defaults.tolerance
    ensures over.Some? && over.value.maxBackwardMovement.Some? ==> c.maxBackwardMovement == over.value.maxBackwardMovement
    ensures over.Some? && over.value.maxBackwardMovement.None? ==> c.maxBackwardMovement == defaults.maxBackwardMovement
    ensures over.Some? && over.value.failureTimeoutMs.Some? ==> c.failureTimeoutMs == over.value.failureTimeoutMs
    ensures over.Some? && over.value.failureTimeoutMs.None? ==> c.failureTimeoutMs == defaults.failureTimeoutMs
  {
    match over
    case None => defaults
    case Some(o) =>
      PartialButtonConfig(Spread(defaults.tolerance, o.tolerance),
                          Spread(defaults.maxBackwardMovement, o.maxBackwardMovement),
                          Spread(defaults.failureTimeoutMs, o.failureTimeoutMs))
  }

  /** The `as DragButtonConfig` cast, for a merged object that has every field. */
  function AsButtonConfig(p: PartialButtonConfig): (r: Option<ButtonConfig>)
    ensures r.Some? <==> p.tolerance.Some? && p.maxBackwardMovement.Some? && p.failureTimeoutMs.Some?
    ensures r.Some? ==> r.value.tolerance == p.tolerance.value && r.value.maxBackwardMovement == p.maxBackwardMovement.value
                        && r.value.failureTimeoutMs == p.failureTimeoutMs.value
  {
    if p.tolerance.Some? && p.maxBackwardMovement.Some? && p.failureTimeoutMs.Some? then
      Some(ButtonConfig(p.tolerance.value, p.maxBackwardMovement.value, p.failureTimeoutMs.value))
    else None
  }

  /** Merging into the stock defaults always yields a full configuration; with nothing to
      merge it is the button's own default configuration. */
  lemma StockDefaultsAreComplete(over: Option<PartialButtonConfig>)
    ensures AsButtonConfig(MergeButtonConfig(DefaultButtonFields, over)).Some?
    ensures over.None? ==> AsButtonConfig(MergeButtonConfig(DefaultButtonFields, over)) == Some(DefaultButtonConfig)
  {
  }

  /** Merging the same override twice changes nothing more. */
  lemma MergeIsIdempotent(defaults: PartialButtonConfig, over: Option<PartialButtonConfig>)
    ensures MergeButtonConfig(MergeButtonConfig(defaults, over), over) == MergeButtonConfig(defaults, over)
  {
  }

  /** The options a manager is constructed with (DragButtonManagerConfig). */
  datatype ManagerOptions = ManagerOptions(defaultButtonConfig: Option<PartialButtonConfig>,
                                           defaultAutoRecreate: Option<bool>,
                                           defaultRecreateDelay: Option<real>)

  /** The manager's configuration after the constructor's spread. */
  datatype ManagerConfig = ManagerConfig(defaultButtonConfig: PartialButtonConfig,
                                         defaultAutoRecreate: bool,
                                         defaultRecreateDelay: real)

  /** The constructor's `{defaults, ...config}`: each option present replaces its default as a
      whole, so a partial defaultButtonConfig is not merged field by field. */
  function Configure(options: Option<ManagerOptions>): (c: ManagerConfig)
    ensures options.None? ==> c == ManagerConfig(DefaultButtonFields, true, 1000.0)
    ensures options.Some? ==> c.defaultButtonConfig == options.value.defaultButtonConfig.GetOr(DefaultButtonFields)
    ensures options.Some? ==> c.defaultAutoRecreate == options.value.defaultAutoRecreate.GetOr(true)
    ensures options.Some? ==> c.defaultRecreateDelay == options.value.defaultRecreateDelay.GetOr(1000.0)
  {
    match options
    case None => ManagerConfig(DefaultButtonFields, true, 1000.0)
    case Some(o) =>
      ManagerConfig(o.defaultButtonConfig.GetOr(DefaultButtonFields),
                    o.defaultAutoRecreate.GetOr(true),
                    o.defaultRecreateDelay.GetOr(1000.0))
  }

  /** A defaultButtonConfig giving only a tolerance drops the other two defaults: buttons
      created without their own configuration then lack maxBackwardMovement and
      failureTimeoutMs. */
  lemma PartialDefaultsAreNotMerged(t: real)
    ensures Configure(Some(ManagerOptions(Some(PartialButtonConfig(Some(t), None, None)), None, None))).defaultButtonConfig.maxBackwardMovement.None?
    ensures AsButtonConfig(MergeButtonConfig(
              Configure(Some(ManagerOptions(Some(PartialButtonConfig(Some(t), None, None)), None, None))).defaultButtonConfig, None)).None?
  {
  }

  /** The evidently intended constructor: a given defaultButtonConfig is merged field by field
      into the stock defaults; the other two options are as written. */
  function ConfigureFieldwise(options: Option<ManagerOptions>): ManagerConfig {
    var c := Configure(options);
    match options
    case None => c
    case Some(o) => c.(defaultButtonConfig := MergeButtonConfig(DefaultButtonFields, o.defaultButtonConfig))
  }

  /** Merged field by field, the defaults keep every stock field the options do not give, so
      every button configuration built from them is complete; a given field wins; and where
      the options give no default configuration, or a complete one, nothing changes. */
  lemma FieldwiseDefaultsKeepStockFields(options: Option<ManagerOptions>, over: Option<PartialButtonConfig>)
    ensures var d := ConfigureFieldwise(options).defaultButtonConfig;
      && AsButtonConfig(MergeButtonConfig(d, over)).Some?
      && (options.Some? && options.value.defaultButtonConfig.Some? ==>
            d == MergeButtonConfig(DefaultButtonFields, options.value.defaultButtonConfig))
      && (options.None? || options.value.defaultButtonConfig.None? ==> d == DefaultButtonFields)
    ensures options.Some? && options.value.defaultButtonConfig.Some? &&
            AsButtonConfig(options.value.defaultButtonConfig.value).Some? ==>
              ConfigureFieldwise(options) == Configure(options)
    ensures ConfigureFieldwise(options).defaultAutoRecreate == Configure(options).defaultAutoRecreate
    ensures ConfigureFieldwise(options).defaultRecreateDelay == Configure(options).defaultRecreateDelay
  {
    var d := ConfigureFieldwise(options).defaultButtonConfig;
    StockDefaultsAreComplete(options.GetOr(ManagerOptions(None, None, None)).defaultButtonConfig);
    assert AsButtonConfig(d).Some?;
  }

  // ---------------------------------------------------------------------------
  // Definitions and the failure policy
  // ---------------------------------------------------------------------------

  /** A DragButtonDefinition. The onComplete/onFailure callbacks of the definition are not
      part of the model: outcomes are returned to the caller instead. */
  datatype Definition = Definition(id: string, position: Point, pathConfig: PathConfig,
                                   buttonConfig: Option<PartialButtonConfig>, rotation: Option<real>,
                                   autoRecreate: Option<bool>, recreateDelay: Option<real>)

  /** The configuration a button of this definition is built with. */
  function ButtonConfigOf(d: Definition, c: ManagerConfig): PartialButtonConfig {
    MergeButtonConfig(c.defaultButtonConfig, d.buttonConfig)
  }

  predicate Configurable(d: Definition, c: ManagerConfig) {
    AsButtonConfig(ButtonConfigOf(d, c)).Some?
  }

  /** `definition.autoRecreate ?? defaultAutoRecreate`. */
  function AutoRecreate(d: Definition, c: ManagerConfig): (auto: bool)
    ensures d.autoRecreate.Some? ==> auto == d.autoRecreate.value
    ensures d.autoRecreate.None? ==> auto == c.defaultAutoRecreate
  {
    d.autoRecreate.GetOr(c.defaultAutoRecreate)
  }

  /** `(definition.recreateDelay ?? defaultRecreateDelay) || 1000`: a zero delay becomes 1000. */
  function RecreateDelay(d: Definition, c: ManagerConfig): (ms: real)
    ensures ms != 0.0
    ensures d.recreateDelay == Some(0.0) ==> ms == 1000.0
    ensures d.recreateDelay.None? && c.defaultRecreateDelay != 0.0 ==> ms == c.defaultRecreateDelay
  {
    var v := d.recreateDelay.GetOr(c.defaultRecreateDelay);
    if v == 0.0 then 1000.0 else v
  }

  /** createSimpleButton's definition: type and size only, everything else absent. */
  function SimpleDefinition(id: string, position: Point, pathType: PathType, size: real, rotation: real): Definition {
    Definition(id, position, PathConfig(Some(pathType), size, 0.0, 0.0, 0.0), None, Some(rotation), None, None)
  }

  // ---------------------------------------------------------------------------
  // The registry and its transitions
  // ---------------------------------------------------------------------------

  /** A delayed recreation: the definition captured at failure time and the delay. */
  datatype Recreate = Recreate(definition: Definition, delayMs: real)

  /** What the registry holds: the definitions by id (the key set of all three maps) and the
      recreations scheduled and not yet fired. */
  datatype Registry = Registry(definitions: map<string, Definition>, scheduled: seq<Recreate>)

  function AfterCreate(r: Registry, d: Definition): Registry {
    r.(definitions := r.definitions[d.id := d])
  }

  function AfterRemove(r: Registry, id: string): Registry {
    r.(definitions := r.definitions - {id})
  }

  /** handleButtonFailure: with auto-recreate the entry stays and a recreation is scheduled;
      otherwise the id is removed. An unknown id is ignored. */
  function AfterFailure(r: Registry, id: string, c: ManagerConfig): Registry {
    if id !in r.definitions then r
    else
      var d := r.definitions[id];
      if AutoRecreate(d, c) then r.(scheduled := r.scheduled + [Recreate(d, RecreateDelay(d, c))])
      else AfterRemove(r, id)
  }

  /** A delayed recreation firing: it is dropped from the schedule and creates its button only
      if no button with that id is registered at that moment. */
  function AfterFire(r: Registry, i: nat): (r': Registry)
    requires i < |r.scheduled|
    ensures |r'.scheduled| == |r.scheduled| - 1
  {
    var d := r.scheduled[i].definition;
    var rest := r.(scheduled := r.scheduled[..i] + r.scheduled[i + 1..]);
    if d.id in r.definitions then rest else AfterCreate(rest, d)
  }

  /** The manager's reaction to a button's callback. */
  function Routed(r: Registry, id: string, fired: Option<Outcome>, c: ManagerConfig): Registry {
    match fired
    case None => r
    case Some(Completed) => AfterRemove(r, id)
    case Some(Failed) => AfterFailure(r, id, c)
  }

  /** A recreation changes the registrations only for an id that was not registered. */
  lemma FireOnlyFillsGaps(r: Registry, i: nat)
    requires i < |r.scheduled|
    ensures r.scheduled[i].definition.id in r.definitions ==> AfterFire(r, i).definitions == r.definitions
    ensures r.scheduled[i].definition.id !in r.definitions ==>
              AfterFire(r, i).definitions == r.definitions[r.scheduled[i].definition.id := r.scheduled[i].definition]
  {
  }

  /** A failed button with auto-recreate keeps its registration, so the recreation scheduled for
      it finds its id taken and creates nothing: the button is never recreated. */
  lemma FailedButtonIsNeverRecreated(r: Registry, id: string, c: ManagerConfig)
    requires id in r.definitions && r.definitions[id].id == id && AutoRecreate(r.definitions[id], c)
    ensures var r1 := AfterFailure(r, id, c);
            && r1.definitions == r.definitions
            && |r1.scheduled| == |r.scheduled| + 1
            && r1.scheduled[|r.scheduled|].definition == r.definitions[id]
            && AfterFire(r1, |r.scheduled|).definitions == r.definitions
            && AfterFire(r1, |r.scheduled|).scheduled == r.scheduled
  {
    var r1 := AfterFailure(r, id, c);
    assert r1.scheduled[..|r.scheduled|] == r.scheduled;
  }

  /** Only an explicit removal between the failure and the firing lets the recreation happen:
      then the same definition is registered again. */
  lemma RemovalLetsRecreationHappen(r: Registry, id: string, c: ManagerConfig)
    requires id in r.definitions && r.definitions[id].id == id && AutoRecreate(r.definitions[id], c)
    ensures var r2 := AfterRemove(AfterFailure(r, id, c), id);
            AfterFire(r2, |r.scheduled|).definitions == r.definitions
  {
    var r2 := AfterRemove(AfterFailure(r, id, c), id);
    assert r2.scheduled[|r.scheduled|].definition == r.definitions[id];
    assert r2.definitions[id := r.definitions[id]] == r.definitions;
  }

  /** The evidently intended failure policy: the failed entry is removed (its button
      destroyed) in every case, and with auto-recreate its definition is scheduled again. */
  function AfterFailureIntended(r: Registry, id: string, c: ManagerConfig): Registry {
    if id !in r.definitions then r
    else
      var d := r.definitions[id];
      var removed := AfterRemove(r, id);
      if AutoRecreate(d, c) then removed.(scheduled := removed.scheduled + [Recreate(d, RecreateDelay(d, c))])
      else removed
  }

  /** Under the intended policy a failed auto-recreate button leaves the registry at once, and
      the recreation, firing after its delay, registers the same definition again; without
      auto-recreate the policy is the one written. */
  lemma IntendedFailureRecreates(r: Registry, id: string, c: ManagerConfig)
    requires id in r.definitions && r.definitions[id].id == id
    ensures var r1 := AfterFailureIntended(r, id, c);
      && r1.definitions == r.definitions - {id}
      && (AutoRecreate(r.definitions[id], c) ==>
            && |r1.scheduled| == |r.scheduled| + 1
            && r1.scheduled[|r.scheduled|] == Recreate(r.definitions[id], RecreateDelay(r.definitions[id], c))
            && AfterFire(r1, |r.scheduled|).definitions == r.definitions
            && AfterFire(r1, |r.scheduled|).scheduled == r.scheduled)
      && (!AutoRecreate(r.definitions[id], c) ==> r1 == AfterFailure(r, id, c))
  {
    var r1 := AfterFailureIntended(r, id, c);
    if AutoRecreate(r.definitions[id], c) {
      assert r1.scheduled[..|r.scheduled|] == r.scheduled;
      assert r1.definitions[id := r.definitions[id]] == r.definitions;
    }
  }

  /** A completion always unregisters the button. */
  lemma CompletionUnregisters(r: Registry, id: string, c: ManagerConfig)
    ensures id !in Routed(r, id, Some(Completed), c).definitions
    ensures Routed(r, id, Some(Completed), c).scheduled == r.scheduled
  {
  }

  /** The path a button of this definition is built on, scaled by `scale`: createButton hands
      only the position and the path configuration to DragButton.create. */
  function ButtonPath(d: Definition, scale: real, trig: Trig): seq<Point> {
    GeneratedPoints(d.position, scale, d.pathConfig, trig)
  }

  /** As written, the definition's rotation does not reach the button: any rotation gives the
      path of no rotation. */
  lemma RotationArgumentIsIgnored(d: Definition, a: real, scale: real, trig: Trig)
    ensures ButtonPath(d.(rotation := Some(a)), scale, trig) == ButtonPath(d.(rotation := None), scale, trig)
  {
  }

  /** The evidently intended button path: the definition's rotation (`rotation || 0`) turns the
      whole button, path and the handle on it, about the button's position. */
  function TurnedButtonPath(d: Definition, scale: real, trig: Trig): seq<Point> {
    Oriented(ButtonPath(d, scale, trig), d.position, d.rotation.GetOr(0.0), trig)
  }

  /** The turned button is the written one moved rigidly about the button's position: every
      point keeps its distance to it, turning back by the same angle restores the written
      path, and no rotation leaves the path as written. */
  lemma TurnedButtonIsRigid(d: Definition, scale: real, trig: Trig)
    requires TrigLawsAt(trig, d.rotation.GetOr(0.0))
    ensures var path := ButtonPath(d, scale, trig);
      var turned := TurnedButtonPath(d, scale, trig);
      var a := d.rotation.GetOr(0.0);
      && |turned| == |path|
      && (forall i :: 0 <= i < |path| ==> SqDist(turned[i], d.position) == SqDist(path[i], d.position))
      && (a != 0.0 ==> Rotate(turned, d.position, -a, trig) == path)
      && (a == 0.0 ==> turned == path)
  {
    var a := d.rotation.GetOr(0.0);
    var path := ButtonPath(d, scale, trig);
    if a != 0.0 {
      RotateKeepsRadii(path, d.position, a, trig);
      RotateRoundTrip(path, d.position, a, trig);
    }
  }

  // ---------------------------------------------------------------------------
  // Grid layout
  // ---------------------------------------------------------------------------

  function DigitChar(d: nat): (ch: char)
    requires d < 10
    ensures '0' <= ch <= '9'
  {
    (d + 48) as char
  }

  /** The decimal text of a natural number, as a template literal prints it. */
  function Decimal(n: nat): (s: string)
    ensures |s| >= 1
    ensures forall i | 0 <= i < |s| :: '0' <= s[i] <= '9'
    ensures n >= 10 ==> |s| >= 2
  {
    if n < 10 then [DigitChar(n)] else Decimal(n / 10) + [DigitChar(n % 10)]
  }

  /** Different numbers print differently. */
  lemma {:induction false} DecimalIsInjective(m: nat, n: nat)
    requires Decimal(m) == Decimal(n)
    ensures m == n
    decreases m
  {
    var s := Decimal(m);
    if m < 10 {
      assert n < 10;
      assert DigitChar(m) == s[0] == DigitChar(n);
    } else {
      assert n >= 10;
      assert DigitChar(m % 10) == s[|s| - 1] == DigitChar(n % 10);
      assert Decimal(m / 10) == s[..|s| - 1] == Decimal(n / 10);
      DecimalIsInjective(m / 10, n / 10);
    }
  }

  /** `grid_${row}_${col}`. */
  function GridId(row: nat, col: nat): string {
    "grid_" + Decimal(row) + "_" + Decimal(col)
  }

  /** A separator that occurs in neither head splits a joined string the same way. */
  lemma SplitAtSeparator(a: string, b: string, a': string, b': string, sep: char)
    requires forall i | 0 <= i < |a| :: a[i] != sep
    requires forall i | 0 <= i < |a'| :: a'[i] != sep
    requires a + [sep] + b == a' + [sep] + b'
    ensures a == a' && b == b'
  {
    var s := a + [sep] + b;
    assert forall i | 0 <= i < |a| :: s[i] == a[i];
    assert forall i | 0 <= i < |a'| :: s[i] == a'[i];
    assert s[|a|] == sep && s[|a'|] == sep;
    assert |a| == |a'|;
    assert a == s[..|a|] == a';
    assert b == s[|a| + 1..] == b';
  }

  /** Distinct cells get distinct ids. */
  lemma GridIdIsInjective(r1: nat, c1: nat, r2: nat, c2: nat)
    requires GridId(r1, c1) == GridId(r2, c2)
    ensures r1 == r2 && c1 == c2
  {
    var s1 := GridId(r1, c1);
    assert s1[5..] == Decimal(r1) + ['_'] + Decimal(c1);
    assert GridId(r2, c2)[5..] == Decimal(r2) + ['_'] + Decimal(c2);
    SplitAtSeparator(Decimal(r1), Decimal(c1), Decimal(r2), Decimal(c2), '_');
    DecimalIsInjective(r1, r2);
    DecimalIsInjective(c1, c2);
  }

  /** The arguments of createButtonGrid. */
  datatype Grid = Grid(startX: real, startY: real, cols: nat, rows: nat, spacing: real,
                       pathTypes: seq<PathType>, size: real, rotations: Option<seq<real>>)

  /** The rotation of the k-th cell: cycled through `rotations` when given; an empty array
      yields undefined, which createSimpleButton's default turns into 0. */
  function GridRotation(g: Grid, k: nat): real {
    if g.rotations.Some? && |g.rotations.value| > 0 then g.rotations.value[k % |g.rotations.value|] else 0.0
  }

  /** `start + i * spacing`: the coordinate of the i-th cell along one axis. */
  function CellCoordinate(start: real, i: nat, spacing: real): real {
    start + i as real * spacing
  }

  /** The definition of cell (row, col), visited k-th. */
  function GridDefinition(g: Grid, row: nat, col: nat, k: nat): Definition
    requires |g.pathTypes| > 0
  {
    SimpleDefinition(GridId(row, col),
                     Point(CellCoordinate(g.startX, col, g.spacing), CellCoordinate(g.startY, row, g.spacing)),
                     g.pathTypes[k % |g.pathTypes|], g.size, GridRotation(g, k))
  }

  /** The definitions createButtonGrid creates in row `row` from column `col` on, the cell
      at `col` being visited k-th. Without path types no cell creates a button. */
  function GridRow(g: Grid, row: nat, col: nat, k: nat): seq<Definition>
    decreases g.cols - col
  {
    if col >= g.cols then []
    else (if |g.pathTypes| > 0 then [GridDefinition(g, row, col, k)] else []) + GridRow(g, row, col + 1, k + 1)
  }

  /** The definitions createButtonGrid creates from row `row` on, the row's first cell being
      visited k-th: each row in turn, each cell counting one visit. */
  function GridFrom(g: Grid, row: nat, k: nat): seq<Definition>
    decreases g.rows - row
  {
    if row >= g.rows then [] else GridRow(g, row, 0, k) + GridFrom(g, row + 1, k + g.cols)
  }

  /** A definition of a row from column `col` on that carries the id of cell (r, c) is that
      cell's definition, with its counter. */
  lemma {:induction false} GridRowIdentifies(g: Grid, row: nat, col: nat, k: nat, d: Definition, r: nat, c: nat)
    requires |g.pathTypes| > 0 && d in GridRow(g, row, col, k) && d.id == GridId(r, c)
    ensures r == row && col <= c < g.cols && d == GridDefinition(g, row, c, k + (c - col))
    decreases g.cols - col
  {
    if d == GridDefinition(g, row, col, k) {
      GridIdIsInjective(row, col, r, c);
    } else {
      GridRowIdentifies(g, row, col + 1, k + 1, d, r, c);
    }
  }

  /** Every cell of a row at or after `col` is created by that row. */
  lemma {:induction false} GridRowHasCell(g: Grid, row: nat, col: nat, k: nat, c: nat)
    requires |g.pathTypes| > 0 && col <= c < g.cols
    ensures GridDefinition(g, row, c, k + (c - col)) in GridRow(g, row, col, k)
    decreases g.cols - col
  {
    if c > col {
      GridRowHasCell(g, row, col + 1, k + 1, c);
    }
  }

  /** The visit counter of the first cell of row r: r rows of cols cells before it. */
  function RowStart(r: nat, cols: nat): nat {
    if r == 0 then 0 else RowStart(r - 1, cols) + cols
  }

  /** The first cell of row r is visited r·cols-th. */
  lemma {:induction false} RowStartIsProduct(r: nat, cols: nat)
    ensures RowStart(r, cols) == r * cols
  {
    if r > 0 {
      RowStartIsProduct(r - 1, cols);
      assert (r - 1) * cols + cols == r * cols;
    }
  }

  /** A definition the grid creates from row `row` on (the counter then being row·cols) that
      carries the id of cell (r, c) is that cell's definition, with counter r·cols + c. */
  lemma {:induction false} GridFromIdentifies(g: Grid, row: nat, d: Definition, r: nat, c: nat)
    requires |g.pathTypes| > 0 && d in GridFrom(g, row, RowStart(row, g.cols)) && d.id == GridId(r, c)
    ensures row <= r < g.rows && c < g.cols && d == GridDefinition(g, r, c, RowStart(r, g.cols) + c)
    decreases g.rows - row
  {
    var k := RowStart(row, g.cols);
    if d in GridRow(g, row, 0, k) {
      GridRowIdentifies(g, row, 0, k, d, r, c);
    } else {
      assert RowStart(row + 1, g.cols) == k + g.cols;
      GridFromIdentifies(g, row + 1, d, r, c);
    }
  }

  /** Every cell of a row at or after `row` is created from row `row` on. */
  lemma {:induction false} GridFromHasCell(g: Grid, row: nat, r: nat, c: nat)
    requires |g.pathTypes| > 0 && row <= r < g.rows && c < g.cols
    ensures GridDefinition(g, r, c, RowStart(r, g.cols) + c) in GridFrom(g, row, RowStart(row, g.cols))
    decreases g.rows - row
  {
    var k := RowStart(row, g.cols);
    if r == row {
      GridRowHasCell(g, row, 0, k, c);
    } else {
      assert RowStart(row + 1, g.cols) == k + g.cols;
      GridFromHasCell(g, row + 1, r, c);
    }
  }

  /** Every cell of a grid ends up registered under its own id grid_row_col, with the path
      type of its row-major counter row·cols + col; a registered grid id names a cell. */
  lemma GridRegistersEveryCell(g: Grid, r: nat, c: nat)
    requires |g.pathTypes| > 0
    ensures GridId(r, c) in Registered(GridFrom(g, 0, 0)) <==> r < g.rows && c < g.cols
    ensures GridId(r, c) in Registered(GridFrom(g, 0, 0)) ==>
              Registered(GridFrom(g, 0, 0))[GridId(r, c)] == GridDefinition(g, r, c, RowStart(r, g.cols) + c)
  {
    var defs := GridFrom(g, 0, 0);
    if r < g.rows && c < g.cols {
      GridFromHasCell(g, 0, r, c);
      var n :| 0 <= n < |defs| && defs[n] == GridDefinition(g, r, c, RowStart(r, g.cols) + c);
      RegisteredHasEvery(defs, n);
    }
    if GridId(r, c) in Registered(defs) {
      RegisteredIsLast(defs, GridId(r, c));
      var i :| 0 <= i < |defs| && defs[i].id == GridId(r, c) && Registered(defs)[GridId(r, c)] == defs[i];
      GridFromIdentifies(g, 0, defs[i], r, c);
    }
  }

  /** The registry after createButtonGrid's inner loop runs over row `row` from column `col`
      on, starting from `r` with counter k. */
  function GridRowCreated(r: Registry, g: Grid, row: nat, col: nat, k: nat): Registry
    decreases g.cols - col
  {
    if col >= g.cols then r
    else GridRowCreated(if |g.pathTypes| > 0 then AfterCreate(r, GridDefinition(g, row, col, k)) else r, g, row, col + 1, k + 1)
  }

  /** The registry after createButtonGrid's outer loop runs from row `row` on. */
  function GridCreated(r: Registry, g: Grid, row: nat, k: nat): Registry
    decreases g.rows - row
  {
    if row >= g.rows then r else GridCreated(GridRowCreated(r, g, row, 0, k), g, row + 1, k + g.cols)
  }

  /** Running over a row creates that row's definitions in order. */
  lemma {:induction false} GridRowCreatesRow(r: Registry, g: Grid, row: nat, col: nat, k: nat)
    ensures GridRowCreated(r, g, row, col, k) == CreatedAll(r, GridRow(g, row, col, k))
    decreases g.cols - col
  {
    if col < g.cols {
      var r' := if |g.pathTypes| > 0 then AfterCreate(r, GridDefinition(g, row, col, k)) else r;
      GridRowCreatesRow(r', g, row, col + 1, k + 1);
      if |g.pathTypes| == 0 {
        assert GridRow(g, row, col, k) == [] + GridRow(g, row, col + 1, k + 1) == GridRow(g, row, col + 1, k + 1);
      } else {
        var d := GridDefinition(g, row, col, k);
        CreatedAllAppend(r, [d], GridRow(g, row, col + 1, k + 1));
        assert CreatedAll(r, [d]) == r' by {
          assert [d][..0] == [];
        }
      }
    }
  }

  /** Running over the rows from `row` on creates their definitions in order. */
  lemma {:induction false} GridCreatesRows(r: Registry, g: Grid, row: nat, k: nat)
    ensures GridCreated(r, g, row, k) == CreatedAll(r, GridFrom(g, row, k))
    decreases g.rows - row
  {
    if row < g.rows {
      var line, rest := GridRow(g, row, 0, k), GridFrom(g, row + 1, k + g.cols);
      var afterLine := GridRowCreated(r, g, row, 0, k);
      GridCreatesRows(afterLine, g, row + 1, k + g.cols);
      GridRowCreatesRow(r, g, row, 0, k);
      CreatedAllAppend(r, line, rest);
    }
  }

  /** The definitions registered by creating `defs` in order: a later id overwrites. */
  function Registered(defs: seq<Definition>): map<string, Definition> {
    if defs == [] then map[]
    else
      var last := defs[|defs| - 1];
      Registered(defs[..|defs| - 1])[last.id := last]
  }

  /** Every definition created is registered under its id. */
  lemma {:induction false} RegisteredHasEvery(defs: seq<Definition>, i: nat)
    requires i < |defs|
    ensures defs[i].id in Registered(defs)
    decreases |defs|
  {
    if i < |defs| - 1 {
      RegisteredHasEvery(defs[..|defs| - 1], i);
    }
  }

  /** What is registered under an id is the last definition created with that id. */
  lemma {:induction false} RegisteredIsLast(defs: seq<Definition>, id: string)
    requires id in Registered(defs)
    ensures exists i | 0 <= i < |defs| ::
              defs[i].id == id && Registered(defs)[id] == defs[i] && (forall j | i < j < |defs| :: defs[j].id != id)
    decreases |defs|
  {
    var n := |defs| - 1;
    var init, last := defs[..n], defs[n];
    assert Registered(defs) == Registered(init)[last.id := last];
    if last.id == id {
      assert defs[n].id == id && Registered(defs)[id] == defs[n];
    } else {
      RegisteredIsLast(init, id);
      var i :| 0 <= i < |init| && init[i].id == id && Registered(init)[id] == init[i] && (forall j | i < j < |init| :: init[j].id != id);
      forall j | i < j < |defs|
        ensures defs[j].id != id
      {
        if j < n {
          assert defs[j] == init[j];
        }
      }
      assert defs[i] == init[i] && Registered(defs)[id] == defs[i];
    }
  }

  /** The registry after creating `defs` in order. */
  function CreatedAll(r: Registry, defs: seq<Definition>): Registry {
    if defs == [] then r else AfterCreate(CreatedAll(r, defs[..|defs| - 1]), defs[|defs| - 1])
  }

  /** Creating one more definition is one more AfterCreate. */
  lemma CreatedAllStep(r: Registry, defs: seq<Definition>, d: Definition)
    ensures CreatedAll(r, defs + [d]) == AfterCreate(CreatedAll(r, defs), d)
  {
    assert (defs + [d])[..|defs|] == defs;
  }

  /** Creating a + b is creating a, then b. */
  lemma {:induction false} CreatedAllAppend(r: Registry, a: seq<Definition>, b: seq<Definition>)
    ensures CreatedAll(r, a + b) == CreatedAll(CreatedAll(r, a), b)
    decreases |b|
  {
    if b == [] {
      assert a + b == a;
    } else {
      var init, last := b[..|b| - 1], b[|b| - 1];
      assert (a + b)[..|a + b| - 1] == a + init;
      CreatedAllAppend(r, a, init);
    }
  }

  /** Creating the first i + 1 definitions is creating the first i, then the next. */
  lemma CreatedPrefixStep(r: Registry, defs: seq<Definition>, i: nat)
    requires i < |defs|
    ensures CreatedAll(r, defs[..i + 1]) == AfterCreate(CreatedAll(r, defs[..i]), defs[i])
  {
    assert defs[..i + 1][..i] == defs[..i];
  }

  /** Creating `defs` in order registers them over the existing definitions, the schedule
      untouched. */
  lemma {:induction false} CreatedAllIsUnion(r: Registry, defs: seq<Definition>)
    ensures CreatedAll(r, defs) == r.(definitions := r.definitions + Registered(defs))
    decreases |defs|
  {
    if defs != [] {
      var init, last := defs[..|defs| - 1], defs[|defs| - 1];
      CreatedAllIsUnion(r, init);
      UpdateOfUnion(r.definitions, Registered(init), last.id, last);
    }
  }

  /** Updating a union updates its right operand. */
  lemma UpdateOfUnion<K, V>(a: map<K, V>, b: map<K, V>, k: K, v: V)
    ensures (a + b)[k := v] == a + b[k := v]
  {
  }

  // ---------------------------------------------------------------------------
  // Queries
  // ---------------------------------------------------------------------------

  /** One entry of getButtonStates. */
  datatype ButtonState = ButtonState(completed: bool, active: bool)

  /** Taking one element out of a set makes it one smaller. */
  lemma RemovalShrinks<T>(s: set<T>, x: T)
    requires x in s
    ensures |s - {x}| == |s| - 1
  {
  }

  /** A subset is no larger than its superset. */
  lemma {:induction false} SubsetIsSmaller<T>(a: set<T>, b: set<T>)
    requires a <= b
    ensures |a| <= |b|
    decreases |b|
  {
    if b != {} {
      var x :| x in b;
      SubsetIsSmaller(a - {x}, b - {x});
    }
  }

  // ---------------------------------------------------------------------------
  // The manager
  // ---------------------------------------------------------------------------

  /** The input events the scene delivers to one registered button. The drag events are left
      out: dragstart and dragend make the same transitions as pointerdown and pointerup, and
      drag differs from pointermove only in not testing dragStarted. The destroy that ends a
      failed button's animation is not an input either, so under auto-recreate a failed
      button keeps its container here for as long as it stays registered. */
  datatype Input = PointerDownOn | PointerUpOn | PointerUpAnywhere | PointerMoveTo(cursor: Point) | FailureTimerFires(timer: nat)

  /** The handle-machine event an input is for the button whose path is `p`. */
  function MachineEvent(input: Input, p: Path, metric: Metric): Event
    requires input.PointerMoveTo? ==> NoZeroSegments(p)
  {
    match input
    case PointerDownOn => PointerDown
    case PointerUpOn => PointerUp
    case PointerUpAnywhere => GlobalPointerUp
    case PointerMoveTo(cursor) => PointerMove(Observe(p, metric, cursor))
    case FailureTimerFires(t) => TimerFires(t)
  }

  /** The three maps share one key set; each definition is stored under its own id and
      gives a full configuration, as does every scheduled recreation; each button drives the
      path manager registered beside it, built with the shared geometry, with the merged
      configuration of its definition; each button and path manager is owned by the id it is
      registered under, so no object is shared between two ids. */
  ghost predicate Coherent(buttons: map<string, DragButton>, pathManagers: map<string, PathManager>,
                           definitions: map<string, Definition>, scheduled: seq<Recreate>,
                           owner: map<object, string>, c: ManagerConfig, metric: Metric, trig: Trig)
  {
    && (forall k :: k in buttons <==> k in definitions)
    && (forall k :: k in pathManagers <==> k in definitions)
    && (forall id | id in definitions :: definitions[id].id == id && Configurable(definitions[id], c))
    && (forall rc | rc in scheduled :: Configurable(rc.definition, c))
    && (forall id | id in buttons ::
          && buttons[id].pathManager == pathManagers[id]
          && pathManagers[id].metric == metric && pathManagers[id].trig == trig
          && buttons[id].config == AsButtonConfig(ButtonConfigOf(definitions[id], c)).value
          && buttons[id] in owner && owner[buttons[id]] == id
          && pathManagers[id] in owner && owner[pathManagers[id]] == id)
  }

  /** Removing an id from all three maps keeps them coherent. */
  lemma CoherentAfterRemove(buttons: map<string, DragButton>, pathManagers: map<string, PathManager>,
                            definitions: map<string, Definition>, scheduled: seq<Recreate>,
                            owner: map<object, string>, c: ManagerConfig, metric: Metric, trig: Trig, id: string)
    requires Coherent(buttons, pathManagers, definitions, scheduled, owner, c, metric, trig)
    ensures Coherent(buttons - {id}, pathManagers - {id}, definitions - {id}, scheduled, owner, c, metric, trig)
  {
  }

  /** Registering a new button and path manager under a definition's id keeps the maps
      coherent. */
  lemma CoherentAfterCreate(buttons: map<string, DragButton>, pathManagers: map<string, PathManager>,
                            definitions: map<string, Definition>, scheduled: seq<Recreate>,
                            owner: map<object, string>, c: ManagerConfig, metric: Metric, trig: Trig,
                            d: Definition, button: DragButton, pathManager: PathManager)
    requires Coherent(buttons, pathManagers, definitions, scheduled, owner, c, metric, trig)
    requires Configurable(d, c) && button.pathManager == pathManager
    requires pathManager.metric == metric && pathManager.trig == trig
    requires button.config == AsButtonConfig(ButtonConfigOf(d, c)).value
    requires button !in owner && pathManager !in owner
    ensures Coherent(buttons[d.id := button], pathManagers[d.id := pathManager], definitions[d.id := d], scheduled,
                     owner[button := d.id][pathManager := d.id], c, metric, trig)
  {
  }

  /** Clearing the three maps keeps them coherent, and every button of coherent maps is
      owned by the id it is registered under. */
  lemma CoherentAfterClear(buttons: map<string, DragButton>, pathManagers: map<string, PathManager>,
                           definitions: map<string, Definition>, scheduled: seq<Recreate>,
                           owner: map<object, string>, c: ManagerConfig, metric: Metric, trig: Trig)
    requires Coherent(buttons, pathManagers, definitions, scheduled, owner, c, metric, trig)
    ensures Coherent(map[], map[], map[], scheduled, owner, c, metric, trig)
    ensures forall id | id in buttons :: buttons[id] in owner && owner[buttons[id]] == id
  {
  }

  /** Scheduling or dropping recreations of configurable definitions keeps the maps
      coherent. */
  lemma CoherentWithSchedule(buttons: map<string, DragButton>, pathManagers: map<string, PathManager>,
                             definitions: map<string, Definition>, scheduled: seq<Recreate>, scheduled': seq<Recreate>,
                             owner: map<object, string>, c: ManagerConfig, metric: Metric, trig: Trig)
    requires Coherent(buttons, pathManagers, definitions, scheduled, owner, c, metric, trig)
    requires forall rc | rc in scheduled' :: Configurable(rc.definition, c)
    ensures Coherent(buttons, pathManagers, definitions, scheduled', owner, c, metric, trig)
  {
  }

  /** After updateLayout, the path of a button that has not completed is the one generated
      for its definition's position at the new scale; a completed button keeps `prior`. */
  ghost predicate LaidOut(button: DragButton, pathManager: PathManager, d: Definition, scaleFactor: real, trig: Trig, prior: seq<Point>)
    reads button, pathManager
  {
    pathManager.pathPoints == if button.isCompleted then prior else GeneratedPoints(d.position, scaleFactor, d.pathConfig, trig)
  }

  /** The listener or timer of `button` that `input` reaches runs: the button makes the
      handle-machine step for that input and reports the callback it signals. */
  method Dispatch(button: DragButton, input: Input) returns (fired: Option<Outcome>)
    requires button.Valid()
    requires input.PointerMoveTo? ==> NoZeroSegments(button.pathManager.Model())
    requires input.FailureTimerFires? ==> input.timer in button.liveTimers
    modifies button
    ensures button.Valid()
    ensures button.Snapshot() == Step(old(button.Snapshot()), MachineEvent(input, button.pathManager.Model(), button.pathManager.metric), button.config)
    ensures fired == Fired(old(button.Snapshot()), button.Snapshot())
  {
    fired := None;
    match input
    case PointerDownOn =>
      if button.hasContainer {
        button.OnDragStart();
      }
    case PointerUpOn =>
      if button.hasContainer {
        fired := button.OnDragEnd();
      }
    case PointerUpAnywhere =>
      if button.hasContainer {
        fired := button.OnGlobalPointerUp();
      }
    case PointerMoveTo(cursor) =>
      fired := button.OnPointerMove(cursor);
    case FailureTimerFires(t) =>
      fired := button.FireFailureTimer(t);
  }

  /** Every button of `buttons` destroyed, as removeAllButtons's forEach does; each is owned
      by the id it is registered under, so they are distinct. A manager with nothing left
      registered stays valid, since none of its own fields change. */
  method DestroyEach(buttons: map<string, DragButton>, ghost owner: map<object, string>, ghost manager: DragButtonManager)
    requires forall id | id in buttons :: buttons[id] in owner && owner[buttons[id]] == id
    requires manager.Consistent() && manager.buttons == map[]
    modifies buttons.Values
    ensures manager.Valid() && unchanged(manager)
    ensures forall id | id in buttons :: buttons[id].Snapshot() == HandleMachine.Destroy(old(buttons[id].Snapshot()))
  {
    ghost var before := map id | id in buttons :: buttons[id].Snapshot();
    var ids := buttons.Keys;
    while ids != {}
      invariant ids <= buttons.Keys
      invariant DestroyedExcept(buttons, ids, before)
      decreases |ids|
    {
      var id :| id in ids;
      assert buttons[id] in buttons.Values;
      DestroyOne(buttons, owner, id, ids, before);
      RemovalShrinks(ids, id);
      ids := ids - {id};
    }
  }

  /** Every button of `buttons` registered under an id outside `pending` is destroyed from
      its state in `before`; every other one is still in that state. */
  ghost predicate DestroyedExcept(buttons: map<string, DragButton>, pending: set<string>, before: map<string, Handle>)
    reads buttons.Values
  {
    && buttons.Keys == before.Keys
    && (forall id | id in buttons ::
          buttons[id].Snapshot() == if id in pending then before[id] else HandleMachine.Destroy(before[id]))
  }

  /** A button no longer registered with `manager` destroyed; the manager, whose buttons it
      does not share state with, stays valid. */
  method DestroyDetached(button: DragButton, ghost manager: DragButtonManager)
    requires manager.Valid() && button in manager.owner && manager.owner[button] !in manager.buttons
    modifies button
    ensures manager.Valid() && unchanged(manager)
    ensures button.Snapshot() == HandleMachine.Destroy(old(button.Snapshot()))
  {
    button.Destroy();
    forall j
      ensures manager.Settled(j)
    {
      assert old(manager.Settled(j));
      if j in manager.buttons {
        assert manager.owner[manager.buttons[j]] != manager.owner[button];
        assert unchanged(manager.buttons[j], manager.buttons[j].pathManager);
      }
    }
  }

  /** The step of DestroyEach for the button `id`: it alone is destroyed. */
  method DestroyOne(buttons: map<string, DragButton>, ghost owner: map<object, string>, id: string,
                    pending: set<string>, ghost before: map<string, Handle>)
    requires forall j | j in buttons :: buttons[j] in owner && owner[buttons[j]] == j
    requires DestroyedExcept(buttons, pending, before) && id in pending && id in buttons
    modifies buttons[id]
    ensures DestroyedExcept(buttons, pending - {id}, before)
  {
    var button := buttons[id];
    button.Destroy();
    forall j | j in buttons
      ensures buttons[j].Snapshot() == if j in pending - {id} then before[j] else HandleMachine.Destroy(before[j])
    {
      if j != id {
        assert owner[buttons[j]] != owner[button];
        assert buttons[j].Snapshot() == old(buttons[j].Snapshot());
      }
    }
  }

  class DragButtonManager {
    const config: ManagerConfig
    /** Phaser.Math.Distance.Between and the trigonometry of Math, shared by every path. */
    const metric: Metric
    const trig: Trig
    var buttons: map<string, DragButton>
    var pathManagers: map<string, PathManager>
    var buttonDefinitions: map<string, Definition>
    /** The delayed recreations scheduled and not yet fired. */
    var scheduled: seq<Recreate>
    /** Every button and path manager ever registered, with the id it was registered under. */
    ghost var owner: map<object, string>

    ghost function Entries(): Registry
      reads this
    {
      Registry(buttonDefinitions, scheduled)
    }

    /** The maps of this manager are coherent. */
    ghost predicate Consistent()
      reads this
    {
      Coherent(buttons, pathManagers, buttonDefinitions, scheduled, owner, config, metric, trig)
    }

    /** The button registered under `id` keeps its own invariant. */
    ghost predicate Healthy(id: string)
      reads this, owner.Keys
    {
      id in buttons ==> buttons[id] in owner && buttons[id].pathManager in owner && buttons[id].Valid()
    }

    /** The button registered under `id` is healthy and has not completed. */
    ghost predicate Settled(id: string)
      reads this, owner.Keys
    {
      Healthy(id) && (id in buttons ==> Completed !in buttons[id].reported)
    }

    /** Consistent, and every button settled except possibly the one registered under `id`. */
    ghost predicate ValidBut(id: string)
      reads this, owner.Keys
    {
      && Consistent()
      && (forall j {:trigger Settled(j)} :: j != id ==> Settled(j))
    }

    /** Consistent, and every button settled: completion always unregisters. */
    ghost predicate Valid()
      reads this, owner.Keys
    {
      && Consistent()
      && (forall j {:trigger Settled(j)} :: Settled(j))
    }

    /** The constructor: options spread over the defaults; nothing registered. */
    constructor (metric: Metric, trig: Trig, options: Option<ManagerOptions>)
      ensures Valid()
      ensures config == Configure(options) && this.metric == metric && this.trig == trig
      ensures Entries() == Registry(map[], [])
    {
      this.metric := metric;
      this.trig := trig;
      config := Configure(options);
      buttons := map[];
      pathManagers := map[];
      buttonDefinitions := map[];
      scheduled := [];
      owner := map[];
    }

    /** createButton: a fresh path manager and button are registered under the definition's
        id, overwriting any previous entries, and the button is created at the definition's
        position. The rotation argument it passes is not taken by the button. */
    method CreateButton(definition: Definition, scaleFactor: real)
      requires Valid() && Configurable(definition, config)
      modifies this
      ensures Valid()
      ensures Entries() == AfterCreate(old(Entries()), definition)
      ensures definition.id in buttons && fresh(buttons[definition.id]) && fresh(pathManagers[definition.id])
      ensures buttons == old(buttons)[definition.id := buttons[definition.id]]
      ensures pathManagers == old(pathManagers)[definition.id := pathManagers[definition.id]]
      ensures buttons[definition.id].Snapshot() == HandleMachine.Create(Initial)
      ensures pathManagers[definition.id].pathPoints == GeneratedPoints(definition.position, scaleFactor, definition.pathConfig, trig)
    {
      var dragButton := NewButton(definition, scaleFactor);
      Register(definition, dragButton);
    }

    /** The button and its path manager, built elsewhere, stored under the definition's id
        along with the definition. */
    method Register(definition: Definition, dragButton: DragButton)
      requires Valid() && Configurable(definition, config)
      requires dragButton !in owner && dragButton.pathManager !in owner && dragButton.Valid()
      requires dragButton.pathManager.metric == metric && dragButton.pathManager.trig == trig
      requires dragButton.config == AsButtonConfig(ButtonConfigOf(definition, config)).value
      requires Completed !in dragButton.reported
      modifies this
      ensures Valid()
      ensures Entries() == AfterCreate(old(Entries()), definition)
      ensures buttons == old(buttons)[definition.id := dragButton]
      ensures pathManagers == old(pathManagers)[definition.id := dragButton.pathManager]
    {
      Store(definition, dragButton);
      SettledKept(definition.id);
      assert Settled(definition.id);
    }

    /** The three maps and the ownership extended by one entry. */
    method Store(definition: Definition, dragButton: DragButton)
      requires Consistent() && Configurable(definition, config)
      requires dragButton !in owner && dragButton.pathManager !in owner
      requires dragButton.pathManager.metric == metric && dragButton.pathManager.trig == trig
      requires dragButton.config == AsButtonConfig(ButtonConfigOf(definition, config)).value
      modifies this
      ensures Consistent() && scheduled == old(scheduled)
      ensures buttons == old(buttons)[definition.id := dragButton]
      ensures pathManagers == old(pathManagers)[definition.id := dragButton.pathManager]
      ensures buttonDefinitions == old(buttonDefinitions)[definition.id := definition]
      ensures owner == old(owner)[dragButton := definition.id][dragButton.pathManager := definition.id]
    {
      CoherentAfterCreate(buttons, pathManagers, buttonDefinitions, scheduled, owner, config, metric, trig, definition, dragButton, dragButton.pathManager);
      pathManagers, buttons, buttonDefinitions := pathManagers[definition.id := dragButton.pathManager], buttons[definition.id := dragButton], buttonDefinitions[definition.id := definition];
      owner := owner[dragButton := definition.id][dragButton.pathManager := definition.id];
    }

    /** The new path manager and button of createButton, the button created at the
        definition's position. */
    method NewButton(definition: Definition, scaleFactor: real) returns (dragButton: DragButton)
      requires Configurable(definition, config)
      ensures fresh(dragButton) && fresh(dragButton.pathManager) && dragButton.Valid()
      ensures dragButton.pathManager.metric == metric && dragButton.pathManager.trig == trig
      ensures dragButton.config == AsButtonConfig(ButtonConfigOf(definition, config)).value
      ensures dragButton.Snapshot() == HandleMachine.Create(Initial)
      ensures dragButton.pathManager.pathPoints == GeneratedPoints(definition.position, scaleFactor, definition.pathConfig, trig)
    {
      var pathManager := new PathManager(metric, trig);
      var buttonConfig := AsButtonConfig(ButtonConfigOf(definition, config)).value;
      dragButton := new DragButton(pathManager, buttonConfig);
      dragButton.Create(definition.position, scaleFactor, Some(definition.pathConfig));
    }

    /** createButtons: each definition in order. */
    method CreateButtons(definitions: seq<Definition>, scaleFactor: real)
      requires Valid() && forall d | d in definitions :: Configurable(d, config)
      modifies this
      ensures Valid()
      ensures Entries() == old(Entries()).(definitions := old(buttonDefinitions) + Registered(definitions))
    {
      ghost var r0 := Entries();
      var i := 0;
      while i < |definitions|
        invariant 0 <= i <= |definitions|
        invariant Valid()
        invariant Entries() == CreatedAll(r0, definitions[..i])
      {
        CreateButton(definitions[i], scaleFactor);
        CreatedPrefixStep(r0, definitions, i);
        i := i + 1;
      }
      assert definitions[..i] == definitions;
      CreatedAllIsUnion(r0, definitions);
    }

    /** createSimpleButton: a definition with only a type and a size. */
    method CreateSimpleButton(id: string, x: real, y: real, pathType: PathType, size: real, scaleFactor: real, rotation: real)
      requires Valid() && AsButtonConfig(config.defaultButtonConfig).Some?
      modifies this
      ensures Valid()
      ensures Entries() == AfterCreate(old(Entries()), SimpleDefinition(id, Point(x, y), pathType, size, rotation))
    {
      CreateButton(SimpleDefinition(id, Point(x, y), pathType, size, rotation), scaleFactor);
    }

    /** createButtonGrid: rows × cols cells visited row by row, cell (row, col) at
        (startX + col·spacing, startY + row·spacing) with the path type cycled by the visit
        counter. */
    method CreateButtonGrid(g: Grid, scaleFactor: real)
      requires Valid() && AsButtonConfig(config.defaultButtonConfig).Some?
      modifies this
      ensures Valid()
      ensures Entries() == old(Entries()).(definitions := old(buttonDefinitions) + Registered(GridFrom(g, 0, 0)))
    {
      ghost var r0 := Entries();
      var pathTypeIndex: nat := 0;
      var row: nat := 0;
      while row < g.rows
        invariant Valid()
        invariant GridCreated(Entries(), g, row, pathTypeIndex) == GridCreated(r0, g, 0, 0)
      {
        pathTypeIndex := CreateGridRow(g, row, pathTypeIndex, scaleFactor);
        row := row + 1;
      }
      GridCreatesRows(r0, g, 0, 0);
      CreatedAllIsUnion(r0, GridFrom(g, 0, 0));
    }

    /** One row of createButtonGrid, its first cell visited k0-th: the visit counter advances
        by one per column. */
    method CreateGridRow(g: Grid, row: nat, k0: nat, scaleFactor: real) returns (pathTypeIndex: nat)
      requires Valid() && AsButtonConfig(config.defaultButtonConfig).Some?
      modifies this
      ensures Valid()
      ensures pathTypeIndex == k0 + g.cols
      ensures Entries() == GridRowCreated(old(Entries()), g, row, 0, k0)
    {
      ghost var r0 := Entries();
      pathTypeIndex := k0;
      var col: nat := 0;
      while col < g.cols
        invariant col <= g.cols && pathTypeIndex == k0 + col
        invariant Valid()
        invariant GridRowCreated(Entries(), g, row, col, pathTypeIndex) == GridRowCreated(r0, g, row, 0, k0)
      {
        if |g.pathTypes| > 0 {
          var pathType := g.pathTypes[pathTypeIndex % |g.pathTypes|];
          var rotation := GridRotation(g, pathTypeIndex);
          var x, y := CellCoordinate(g.startX, col, g.spacing), CellCoordinate(g.startY, row, g.spacing);
          assert GridDefinition(g, row, col, pathTypeIndex) == SimpleDefinition(GridId(row, col), Point(x, y), pathType, g.size, rotation);
          CreateSimpleButton(GridId(row, col), x, y, pathType, g.size, scaleFactor, rotation);
        }
        pathTypeIndex := pathTypeIndex + 1;
        col := col + 1;
      }
    }

    /** removeButton: the id leaves all three maps (its button destroyed first); every other
        entry and every other button is untouched; an absent id is harmless. */
    method RemoveButton(id: string)
      requires ValidBut(id)
      modifies this, if id in buttons then {buttons[id]} else {}
      ensures Valid()
      ensures Entries() == AfterRemove(old(Entries()), id)
      ensures buttons == old(buttons) - {id} && pathManagers == old(pathManagers) - {id}
      ensures id in old(buttons) ==> old(buttons)[id].Snapshot() == HandleMachine.Destroy(old(buttons[id].Snapshot()))
    {
      CoherentAfterRemove(buttons, pathManagers, buttonDefinitions, scheduled, owner, config, metric, trig, id);
      // The entry is unregistered before its button is destroyed; the two touch disjoint
      // state, so the outcome is the one of destroying first.
      var removed := if id in buttons then Some(buttons[id]) else None;
      buttons, pathManagers, buttonDefinitions := buttons - {id}, pathManagers - {id}, buttonDefinitions - {id};
      SettledKept(id);
      assert Settled(id);
      if removed.Some? {
        DestroyDetached(removed.value, this);
      }
    }

    /** A step that changes nothing registered under any id but `id`, and at most extends the
        ownership, keeps every other button settled; with the button under `id` (if any)
        settled too, every button is. */
    twostate lemma SettledKept(id: string)
      requires old(ValidBut(id)) && Consistent()
      requires forall o | o in old(owner) :: o in owner && owner[o] == old(owner)[o]
      requires forall j | j in buttons && j != id :: j in old(buttons) && buttons[j] == old(buttons[j])
      requires forall b: DragButton | b in old(owner) && old(owner)[b] != id :: unchanged(b)
      requires forall p: PathManager | p in old(owner) && old(owner)[p] != id :: unchanged(p)
      ensures ValidBut(id)
    {
      forall j | j != id
        ensures Settled(j)
      {
        if j in buttons {
          assert old(Settled(j));
          assert unchanged(buttons[j], buttons[j].pathManager);
        }
      }
    }

    /** removeAllButtons: every button is destroyed, then all three maps are cleared. Scheduled
        recreations are not cancelled. */
    method RemoveAllButtons()
      requires Consistent()
      modifies this, buttons.Values
      ensures Valid()
      ensures Entries() == Registry(map[], old(scheduled))
      ensures buttons == map[] && pathManagers == map[]
      ensures forall id | id in old(buttons) :: old(buttons)[id].Snapshot() == HandleMachine.Destroy(old(buttons[id].Snapshot()))
    {
      CoherentAfterClear(buttons, pathManagers, buttonDefinitions, scheduled, owner, config, metric, trig);
      // The maps are cleared before the buttons are destroyed; the two touch disjoint state,
      // so the outcome is the one of destroying first.
      var registered := buttons;
      buttons, pathManagers, buttonDefinitions := map[], map[], map[];
      DestroyEach(registered, owner, this);
    }

    /** handleButtonComplete: a completed button is removed. */
    method HandleButtonComplete(id: string)
      requires ValidBut(id)
      modifies this, if id in buttons then {buttons[id]} else {}
      ensures Valid()
      ensures Entries() == Routed(old(Entries()), id, Some(Completed), config)
      ensures id in old(buttons) ==> id !in buttons && old(buttons)[id].Snapshot() == HandleMachine.Destroy(old(buttons[id].Snapshot()))
    {
      RemoveButton(id);
    }

    /** handleButtonFailure: with auto-recreate the failed button stays registered and a
        recreation is scheduled; otherwise it is removed. */
    method HandleButtonFailure(id: string)
      requires Valid()
      modifies this, if id in buttons then {buttons[id]} else {}
      ensures Valid()
      ensures Entries() == Routed(old(Entries()), id, Some(Failed), config)
      ensures id in old(buttonDefinitions) && AutoRecreate(old(buttonDefinitions)[id], config) ==>
                buttons == old(buttons) && pathManagers == old(pathManagers)
      ensures id in old(buttons) ==>
                old(buttons)[id].Snapshot() == if id in buttons then old(buttons[id].Snapshot()) else HandleMachine.Destroy(old(buttons[id].Snapshot()))
    {
      if id !in buttonDefinitions {
        return;
      }
      var definition := buttonDefinitions[id];
      if AutoRecreate(definition, config) {
        Reschedule(scheduled + [Recreate(definition, RecreateDelay(definition, config))]);
      } else {
        RemoveButton(id);
      }
    }

    /** The pending recreations replaced by `later`, each of whose definitions is configurable;
        nothing registered changes. */
    method Reschedule(later: seq<Recreate>)
      requires Valid()
      requires forall rc | rc in later :: Configurable(rc.definition, config)
      modifies this
      ensures Valid() && scheduled == later
      ensures buttons == old(buttons) && pathManagers == old(pathManagers)
      ensures buttonDefinitions == old(buttonDefinitions) && owner == old(owner)
    {
      CoherentWithSchedule(buttons, pathManagers, buttonDefinitions, scheduled, later, owner, config, metric, trig);
      scheduled := later;
      forall j
        ensures Settled(j)
      {
        assert old(Settled(j));
      }
    }

    /** The delayed recreation `i` firing: the captured definition is created again, at scale
        1, only if its id has no button at that moment. */
    method FireRecreate(i: nat)
      requires Valid() && i < |scheduled|
      modifies this
      ensures Valid()
      ensures Entries() == AfterFire(old(Entries()), i)
      ensures old(scheduled[i].definition.id) in old(buttons) ==> buttons == old(buttons) && pathManagers == old(pathManagers)
      ensures old(scheduled[i].definition.id) !in old(buttons) ==>
                pathManagers[old(scheduled[i].definition.id)].pathPoints
                  == GeneratedPoints(old(scheduled[i].definition.position), 1.0, old(scheduled[i].definition.pathConfig), trig)
      ensures old(scheduled[i].definition.id) !in old(buttons) ==>
                buttons[old(scheduled[i].definition.id)].Snapshot() == HandleMachine.Create(Initial)
    {
      var definition := scheduled[i].definition;
      var rest := scheduled[..i] + scheduled[i + 1..];
      assert forall rc | rc in rest :: rc in scheduled;
      Reschedule(rest);
      if definition.id !in buttons {
        CreateButton(definition, 1.0);
      }
    }

    /** An input delivered to the button `id`: the button makes the handle-machine step, and
        the callback it signals, if any, is routed to the manager; a completed button is then
        destroyed by its removal. */
    method Deliver(id: string, input: Input) returns (fired: Option<Outcome>)
      requires Valid() && id in buttons
      requires input.PointerMoveTo? ==> NoZeroSegments(pathManagers[id].Model())
      requires input.FailureTimerFires? ==> input.timer in buttons[id].liveTimers
      modifies this, buttons[id]
      ensures Valid()
      ensures var stepped := Step(old(buttons[id].Snapshot()), MachineEvent(input, old(pathManagers[id].Model()), metric), old(buttons[id].config));
              && fired == Fired(old(buttons[id].Snapshot()), stepped)
              && old(buttons)[id].Snapshot() == if id in buttons then stepped else HandleMachine.Destroy(stepped)
      ensures Entries() == Routed(old(Entries()), id, fired, config)
    {
      var button := buttons[id];
      assert Settled(id);
      ghost var before := button.Snapshot();
      fired := Dispatch(button, input);
      StepKeepsOutcome(before, MachineEvent(input, pathManagers[id].Model(), metric), button.config);
      SettledKept(id);
      Route(id, fired);
    }

    /** The callback `fired` by the button `id` reaching the manager: a completion removes the
        button, a failure is handled as handleButtonFailure says. */
    method Route(id: string, fired: Option<Outcome>)
      requires ValidBut(id)
      requires fired != Some(Completed) ==> Settled(id)
      modifies this, if id in buttons then {buttons[id]} else {}
      ensures Valid()
      ensures Entries() == Routed(old(Entries()), id, fired, config)
      ensures id in old(buttons) ==>
                old(buttons)[id].Snapshot() == if id in buttons then old(buttons[id].Snapshot()) else HandleMachine.Destroy(old(buttons[id].Snapshot()))
    {
      if fired == Some(Completed) {
        HandleButtonComplete(id);
      } else if fired == Some(Failed) {
        HandleButtonFailure(id);
      }
    }

    /** updateLayout: every registered button that has not completed regenerates its path
        for the definition's position and the new scale; completed buttons keep theirs. */
    method UpdateLayout(scaleFactor: real)
      requires Valid()
      modifies pathManagers.Values
      ensures Valid()
      ensures forall id | id in buttons ::
                LaidOut(buttons[id], pathManagers[id], buttonDefinitions[id], scaleFactor, trig, old(pathManagers[id].pathPoints))
    {
      ghost var before := map id | id in pathManagers :: pathManagers[id].pathPoints;
      var ids := buttonDefinitions.Keys;
      while ids != {}
        invariant ids <= buttonDefinitions.Keys
        invariant Valid()
        invariant LaidOutExcept(ids, scaleFactor, before)
        decreases |ids|
      {
        var id :| id in ids;
        assert pathManagers[id] in pathManagers.Values;
        UpdateOne(id, scaleFactor, ids, before);
        RemovalShrinks(ids, id);
        ids := ids - {id};
      }
    }

    /** Every path registered under an id outside `pending` is laid out for `scaleFactor`,
        every other one is still the one in `before`. */
    ghost predicate LaidOutExcept(pending: set<string>, scaleFactor: real, before: map<string, seq<Point>>)
      reads this, pathManagers.Values, buttons.Values
    {
      && Consistent()
      && pathManagers.Keys == before.Keys
      && (forall id | id in buttons && id !in pending ::
            LaidOut(buttons[id], pathManagers[id], buttonDefinitions[id], scaleFactor, trig, before[id]))
      && (forall id | id in pending && id in pathManagers :: pathManagers[id].pathPoints == before[id])
    }

    /** The step of updateLayout for the definition `id`, as the loop sees it: `id` is no
        longer pending. */
    method UpdateOne(id: string, scaleFactor: real, pending: set<string>, ghost before: map<string, seq<Point>>)
      requires Valid() && id in buttonDefinitions && id in pending
      requires LaidOutExcept(pending, scaleFactor, before)
      modifies pathManagers[id]
      ensures Valid() && unchanged(this)
      ensures LaidOutExcept(pending - {id}, scaleFactor, before)
    {
      LayOutOne(id, scaleFactor);
    }

    /** The body of updateLayout's forEach for the definition `id`: its button, unless
        completed, regenerates its path; every other path is left as it was. */
    method LayOutOne(id: string, scaleFactor: real)
      requires Valid() && id in buttonDefinitions
      modifies pathManagers[id]
      ensures Valid()
      ensures LaidOut(buttons[id], pathManagers[id], buttonDefinitions[id], scaleFactor, trig, old(pathManagers[id].pathPoints))
      ensures forall j | j in pathManagers && j != id :: unchanged(pathManagers[j])
    {
      var button := buttons[id];
      assert Settled(id);
      var completed := button.IsButtonCompleted();
      if !completed {
        var definition := buttonDefinitions[id];
        button.UpdateLayout(definition.position, scaleFactor, Some(definition.pathConfig));
      }
      SettledKept(id);
      assert Settled(id);
      forall j | j in pathManagers && j != id
        ensures unchanged(pathManagers[j])
      {
        assert owner[pathManagers[j]] != owner[pathManagers[id]];
      }
    }

    /** getButtonStates: one entry per definition; active exactly for registered buttons, which
        every definition has; completed exactly for completed buttons. */
    method GetButtonStates() returns (states: map<string, ButtonState>)
      requires Consistent()
      ensures states.Keys == buttonDefinitions.Keys
      ensures forall id | id in states :: states[id].active <==> id in buttons
      ensures forall id | id in states :: states[id].active
      ensures forall id | id in states :: states[id].completed <==> buttons[id].isCompleted
    {
      states := map[];
      var ids := buttonDefinitions.Keys;
      while ids != {}
        invariant ids <= buttonDefinitions.Keys
        invariant forall id :: id in states <==> id in buttonDefinitions && id !in ids
        invariant forall id | id in states :: id in buttons && states[id] == ButtonState(buttons[id].isCompleted, true)
        decreases |ids|
      {
        var id :| id in ids;
        var completed := false;
        var active := false;
        if id in buttons {
          completed := buttons[id].IsButtonCompleted();
          active := true;
        }
        states := states[id := ButtonState(completed, active)];
        RemovalShrinks(ids, id);
        ids := ids - {id};
      }
    }

    /** A registered button shows as completed exactly when it has failed and stays registered
        awaiting a recreation: a completion always unregisters its button. */
    lemma CompletedOnlyByFailure(id: string)
      requires Valid() && id in buttons
      ensures buttons[id].isCompleted <==> buttons[id].reported == [Failed]
    {
      assert Settled(id);
      var b := buttons[id];
      assert Inv(b.Snapshot());
      if b.isCompleted {
        assert |b.reported| == 1 && b.reported[0] != Completed;
      }
    }

    /** areAllButtonsCompleted: every definition's button has completed; vacuously true with
        no definitions. */
    method AreAllButtonsCompleted() returns (all: bool)
      requires Consistent()
      ensures all <==> forall id | id in buttonDefinitions :: buttons[id].isCompleted
      ensures buttonDefinitions == map[] ==> all
    {
      var states := GetButtonStates();
      all := forall id | id in states :: states[id].completed;
    }

    /** getActiveButtonCount: the number of registered buttons, one per definition. */
    method GetActiveButtonCount() returns (n: nat)
      requires Consistent()
      ensures n == |buttons| && n == |buttonDefinitions|
    {
      assert buttons.Keys == buttonDefinitions.Keys;
      n := |buttons|;
    }

    /** getCompletedButtonCount: the number of definitions whose button has completed, at most
        the number of definitions. */
    method GetCompletedButtonCount() returns (n: nat)
      requires Consistent()
      ensures n == |set id | id in buttonDefinitions && buttons[id].isCompleted|
      ensures n <= |buttonDefinitions|
    {
      var states := GetButtonStates();
      var done := set id | id in states && states[id].completed;
      assert done == set id | id in buttonDefinitions && buttons[id].isCompleted;
      SubsetIsSmaller(done, buttonDefinitions.Keys);
      n := |done|;
    }
  }
}
