/** Limits as CSV cells: the printer, the strict parser, and the import that applies all rows or none. */
module LimitsCsv {
  import opened Options
  import opened Text
  import opened Periods
  import opened Decimal
  import opened Entities

  datatype StoredLimit = StoredLimit(
    entity: Entity, name: Option<string>, creditLimit: nat, period: PeriodType, warningPct: nat,
    enforce: bool, active: bool, includeMembers: bool, hold: bool, countExisting: bool,
    start: Option<Moment>, end: Option<Moment>, notes: Option<string>)

  /** A validated row. */
  datatype Input = Input(
    entity: Entity, creditLimit: nat, period: PeriodType, warningPct: nat, enforce: bool,
    includeMembers: bool, hold: bool, countExisting: bool, start: Option<Moment>, end: Option<Moment>,
    notes: Option<string>)

  datatype Column =
    | TypeColumn | IdColumn | LabelColumn | CreditColumn | PeriodColumn | WarningColumn | EnforceColumn | ActiveColumn
    | MembersColumn | HoldColumn | CountColumn | StartColumn | EndColumn | NotesColumn

  /** The cells of one line under the headers that are present. */
  type Line = map<Column, string>

  datatype Table = Table(headers: set<Column>, lines: seq<Line>)

  const MAX_ROWS := 5000
  const REQUIRED := {TypeColumn, IdColumn, CreditColumn}

  // ----------------------------------------------------------------------------- cells

  predicate StartsFormula(s: string) {
    s != [] && s[0] in "=+-@\t\r"
  }

  /** Text a spreadsheet would evaluate gets an apostrophe in front. */
  function Neutralise(s: string): string {
    if StartsFormula(s) then ['\''] + s else s
  }

  function Unneutralise(s: string): string {
    if s != [] && s[0] == '\'' && StartsFormula(s[1..]) then s[1..] else s
  }

  predicate LooksNeutralised(s: string) {
    s != [] && s[0] == '\'' && StartsFormula(s[1..])
  }

  /** No exported text starts as a formula would, and harmless text is exported as it is. */
  lemma ExportedTextIsHarmless(s: string)
    ensures Neutralise(s) != "" ==> Neutralise(s)[0] !in "=+-@\t\r"
    ensures s != "" && s[0] in "=+-@\t\r" ==> Neutralise(s) == "'" + s
    ensures s == "" || s[0] !in "=+-@\t\r" ==> Neutralise(s) == s
  {
  }

  lemma UnneutraliseUndoesIff(s: string)
    ensures Unneutralise(Neutralise(s)) == s <==> !LooksNeutralised(s)
  {
    if StartsFormula(s) {
      assert (['\''] + s)[1..] == s;
    }
  }

  /** What the import makes of an exported text cell. */
  function TextBack(s: string): string {
    Unneutralise(Strip(Neutralise(s)))
  }

  predicate EndsInSpace(s: string) {
    s != [] && IsSpace(s[|s| - 1])
  }

  /** A leading space is lost unless the apostrophe put before a formula character protects it. */
  predicate LeadsWithLostSpace(s: string) {
    s != [] && IsSpace(s[0]) && !StartsFormula(s)
  }

  lemma StripShortens(s: string)
    ensures |Strip(s)| <= |s| && (EndsInSpace(s) || (s != [] && IsSpace(s[0])) ==> |Strip(s)| < |s|)
  {
    StripLeftShortens(s);
    StripRightShortens(StripLeft(s));
    StripLeftKeepsEnd(s);
  }

  lemma {:induction false} StripLeftShortens(s: string)
    ensures |StripLeft(s)| <= |s| && (s != [] && IsSpace(s[0]) ==> |StripLeft(s)| < |s|)
  {
    if s != [] && IsSpace(s[0]) {
      StripLeftShortens(s[1..]);
    }
  }

  lemma {:induction false} StripRightShortens(s: string)
    ensures |StripRight(s)| <= |s| && (EndsInSpace(s) ==> |StripRight(s)| < |s|)
  {
    if EndsInSpace(s) {
      StripRightShortens(s[..|s| - 1]);
    }
  }

  lemma {:induction false} StripLeftKeepsEnd(s: string)
    ensures StripLeft(s) != [] ==> StripLeft(s)[|StripLeft(s)| - 1] == s[|s| - 1]
  {
    if s != [] && IsSpace(s[0]) {
      StripLeftKeepsEnd(s[1..]);
    }
  }

  lemma {:induction false} StripRightKeepsStart(s: string)
    ensures StripRight(s) != [] ==> StripRight(s)[0] == s[0]
  {
    if EndsInSpace(s) {
      StripRightKeepsStart(s[..|s| - 1]);
    }
  }

  /** A text cell survives export and import exactly when it does not already look neutralised and loses no space. */
  lemma TextSurvivesIff(s: string)
    ensures TextBack(s) == s <==> !LooksNeutralised(s) && !EndsInSpace(s) && !LeadsWithLostSpace(s)
  {
    var cell := Neutralise(s);
    StripShortens(cell);
    if StartsFormula(s) {
      assert cell[1..] == s && cell[0] == '\'' && cell[|cell| - 1] == s[|s| - 1];
      StripRightKeepsStart(cell);
    }
    if Trimmed(cell) {
      StripTrimmed(cell);
      UnneutraliseUndoesIff(s);
    }
  }

  // ---------------------------------------------------------------------------- values

  /** How dates are printed and read; their notation is not part of this model. */
  datatype Dates = Dates(show: Moment -> string, read: string -> Option<Moment>)

  /** Printed dates are plain cells, and reading gives back what was printed. */
  ghost predicate DatesRoundTrip(dates: Dates) {
    forall m: Moment :: dates.show(m) != [] && Trimmed(dates.show(m)) && !StartsFormula(dates.show(m))
                        && dates.read(dates.show(m)) == Some(m)
  }

  function LevelName(level: EntityType): string {
    match level
    case User => "user"
    case Group => "group"
    case Project => "project"
    case Application => "application"
  }

  function ReadLevel(s: string): Option<EntityType> {
    if s == "user" then Some(User)
    else if s == "group" then Some(Group)
    else if s == "project" then Some(Project)
    else if s == "application" then Some(Application)
    else None
  }

  function PeriodName(p: PeriodType): string {
    match p
    case Monthly => "monthly"
    case Quarterly => "quarterly"
    case Custom => "custom"
    case Lifetime => "lifetime"
  }

  function ReadPeriod(s: string): Option<PeriodType> {
    if s == "monthly" then Some(Monthly)
    else if s == "quarterly" then Some(Quarterly)
    else if s == "custom" then Some(Custom)
    else if s == "lifetime" then Some(Lifetime)
    else None
  }

  function BoolName(b: bool): string {
    if b then "true" else "false"
  }

  /** An absent column and an empty cell are false; other words are refused. */
  function ReadBool(cell: string): Option<bool> {
    var text := Normal(cell);
    if text in ["true", "1", "yes", "y", "on"] then Some(true)
    else if text in ["false", "0", "no", "n", "off", ""] then Some(false)
    else None
  }

  predicate AllDigits(s: string) {
    s != [] && forall c :: c in s ==> IsDigit(c)
  }

  /** Whole numbers with an optional sign. */
  function ReadInt(cell: string): Option<int> {
    var s := Strip(cell);
    if AllDigits(s) then Some(Read(s))
    else if s != [] && s[0] in "+-" && AllDigits(s[1..])
    then Some(if s[0] == '-' then 0 - (Read(s[1..]) as int) else Read(s[1..]))
    else None
  }

  /** `None` inside when there is no date, outside when the cell is not one. */
  function ReadDate(cell: string, dates: Dates): Option<Option<Moment>> {
    if Strip(cell) == "" then Some(None)
    else
      var m := dates.read(Strip(cell));
      if m.None? then None else Some(m)
  }

  function CellAt(line: Line, column: Column): string {
    if column in line then line[column] else ""
  }

  function OrDefault(s: string, otherwise: string): string {
    if s == "" then otherwise else s
  }

  // ------------------------------------------------------------------------------ rows

  /** The cells of one line by name; those of absent columns are empty. */
  datatype Cells = Cells(
    level: string, id: string, credit: string, period: string, warning: string, enforce: string,
    members: string, hold: string, count: string, start: string, end: string, notes: string)

  function CellsOf(line: Line): Cells {
    Cells(CellAt(line, TypeColumn), CellAt(line, IdColumn), CellAt(line, CreditColumn), CellAt(line, PeriodColumn),
          CellAt(line, WarningColumn), CellAt(line, EnforceColumn), CellAt(line, MembersColumn),
          CellAt(line, HoldColumn),
          CellAt(line, CountColumn), CellAt(line, StartColumn), CellAt(line, EndColumn), CellAt(line, NotesColumn))
  }

  function ShowDate(m: Option<Moment>, dates: Dates): string {
    if m.Some? then dates.show(m.value) else ""
  }

  function CellsToPrint(l: StoredLimit, dates: Dates): Cells {
    Cells(LevelName(l.entity.level), Neutralise(l.entity.id), Show(l.creditLimit), PeriodName(l.period),
          Show(l.warningPct), BoolName(l.enforce), BoolName(l.includeMembers), BoolName(l.hold),
          BoolName(l.countExisting), ShowDate(l.start, dates), ShowDate(l.end, dates), Neutralise(l.notes.GetOr("")))
  }

  /** The printed line; label and activity are printed but never read. */
  function ExportLine(l: StoredLimit, dates: Dates): Line {
    var c := CellsToPrint(l, dates);
    map[TypeColumn := c.level, IdColumn := c.id, LabelColumn := Neutralise(l.name.GetOr("")), CreditColumn := c.credit,
        PeriodColumn := c.period, WarningColumn := c.warning, EnforceColumn := c.enforce,
        ActiveColumn := BoolName(l.active),
        MembersColumn := c.members, HoldColumn := c.hold, CountColumn := c.count, StartColumn := c.start,
        EndColumn := c.end, NotesColumn := c.notes]
  }

  lemma PrintedCells(l: StoredLimit, dates: Dates)
    ensures CellsOf(ExportLine(l, dates)) == CellsToPrint(l, dates)
  {
  }

  lemma PrintedIsNotBlank(l: StoredLimit, dates: Dates)
    ensures !Blank(ExportLine(l, dates))
  {
    assert ExportLine(l, dates)[CreditColumn] == Show(l.creditLimit) != "";
  }

  function Lines(limits: seq<StoredLimit>, dates: Dates): seq<Line> {
    seq(|limits|, i requires 0 <= i < |limits| => ExportLine(limits[i], dates))
  }

  function Export(limits: seq<StoredLimit>, dates: Dates): Table {
    Table({TypeColumn, IdColumn, LabelColumn, CreditColumn, PeriodColumn, WarningColumn, EnforceColumn, ActiveColumn,
           MembersColumn, HoldColumn, CountColumn, StartColumn, EndColumn, NotesColumn},
          Lines(limits, dates))
  }

  /** The period columns of a row; any end must come after any start, whatever the period type. */
  predicate PeriodFits(period: PeriodType, start: Option<Moment>, end: Option<Moment>) {
    && (period == Custom ==> start.Some?)
    && (start.Some? && end.Some? ==> start.value.Before(end.value))
  }

  function ReadWarning(cell: string): Option<int> {
    if Strip(cell) == "" then Some(80) else ReadInt(cell)
  }

  function ReadLevelCell(cell: string): Option<EntityType> {
    ReadLevel(Normal(cell))
  }

  function ReadPeriodCell(cell: string): Option<PeriodType> {
    ReadPeriod(Normal(OrDefault(cell, "monthly")))
  }

  /** What each cell reads as, on its own. */
  datatype Fields = Fields(
    level: Option<EntityType>, id: string, credit: Option<int>, period: Option<PeriodType>, warning: Option<int>,
    enforce: Option<bool>, members: Option<bool>, hold: Option<bool>, count: Option<bool>,
    start: Option<Option<Moment>>, end: Option<Option<Moment>>, notes: string)

  function FieldsOf(c: Cells, dates: Dates): Fields {
    Fields(ReadLevelCell(c.level), Unneutralise(Strip(c.id)), ReadInt(c.credit), ReadPeriodCell(c.period),
           ReadWarning(c.warning), ReadBool(c.enforce), ReadBool(c.members), ReadBool(c.hold), ReadBool(c.count),
           ReadDate(c.start, dates), ReadDate(c.end, dates), Unneutralise(Strip(c.notes)))
  }

  /** The fields as a limit, or `None` when any of them is refused. */
  function Assembled(f: Fields): Option<Input> {
    if f.level.None? || f.id == "" || f.credit.None? || f.credit.value < 0 || f.period.None? then None
    else if f.warning.None? || !(1 <= f.warning.value <= 100) then None
    else if f.enforce.None? || f.members.None? || f.hold.None? || f.count.None? then None
    else if f.members.value && f.level.value != Group then None
    else if f.start.None? || f.end.None? || !PeriodFits(f.period.value, f.start.value, f.end.value) then None
    else
      Some(Input(Entity(f.level.value, f.id), f.credit.value, f.period.value, f.warning.value, f.enforce.value,
                 f.members.value, f.hold.value, f.count.value, f.start.value, f.end.value,
                 if f.notes == "" then None else Some(f.notes)))
  }

  function LineToInput(line: Line, dates: Dates): Option<Input> {
    Assembled(FieldsOf(CellsOf(line), dates))
  }

  /** What a limit says, apart from its label and whether it is active. */
  function InputOf(l: StoredLimit): Input {
    Input(l.entity, l.creditLimit, l.period, l.warningPct, l.enforce, l.includeMembers, l.hold, l.countExisting,
          l.start, l.end, l.notes)
  }

  /** The checks every stored limit has passed. */
  predicate ValidStored(l: StoredLimit) {
    && l.entity.id != ""
    && 1 <= l.warningPct <= 100
    && (l.period == Custom ==> PeriodFits(l.period, l.start, l.end))
    && (l.includeMembers ==> l.entity.level == Group)
  }

  lemma LevelReadsBack(level: EntityType)
    ensures ReadLevelCell(LevelName(level)) == Some(level)
  {
    var s := LevelName(level);
    StripTrimmed(s);
    assert Lower(s) == s;
  }

  lemma PeriodReadsBack(p: PeriodType)
    ensures ReadPeriodCell(PeriodName(p)) == Some(p)
  {
    var s := PeriodName(p);
    StripTrimmed(s);
    assert Lower(s) == s;
  }

  lemma BoolReadsBack(b: bool)
    ensures ReadBool(BoolName(b)) == Some(b)
  {
    var s := BoolName(b);
    StripTrimmed(s);
    assert Lower(s) == s;
  }

  lemma IntReadsBack(n: nat)
    ensures ReadInt(Show(n)) == Some(n) && ReadWarning(Show(n)) == Some(n)
  {
    ReadShow(n);
    var s := Show(n);
    assert s[0] in s && s[|s| - 1] in s;
    StripTrimmed(s);
  }

  /** Levels are read by their names, and nothing else is. */
  lemma LevelsAreRead(cell: string, level: EntityType)
    ensures ReadLevelCell(cell) == Some(level) <==> Normal(cell) == LevelName(level)
  {
  }

  /** So are periods; no period stands for monthly. */
  lemma PeriodsAreRead(cell: string, period: PeriodType)
    ensures cell != "" ==> (ReadPeriodCell(cell) == Some(period) <==> Normal(cell) == PeriodName(period))
    ensures ReadPeriodCell("") == Some(Monthly)
  {
    PeriodReadsBack(Monthly);
  }

  /** Five words say yes, five say no, as does saying nothing; every other word is refused. */
  lemma AnswersAreRead(cell: string)
    ensures ReadBool(cell) == Some(true) <==> Normal(cell) in {"true", "1", "yes", "y", "on"}
    ensures ReadBool(cell) == Some(false) <==> Normal(cell) in {"false", "0", "no", "n", "off", ""}
  {
  }

  /** A sign counts, so that a budget below zero is seen and refused. */
  lemma SignsAreRead(sign: char, digits: string)
    requires (sign == '-' || sign == '+') && AllDigits(digits)
    ensures ReadInt([sign] + digits) == Some(if sign == '-' then 0 - (Read(digits) as int) else Read(digits))
  {
    var s := [sign] + digits;
    assert s[|s| - 1] == digits[|digits| - 1] && digits[|digits| - 1] in digits;
    assert s[0] == sign && s[1..] == digits && !AllDigits(s) by { assert sign in s; }
    StripTrimmed(s);
    assert Strip(s) == s;
  }

  lemma DateReadsBack(m: Option<Moment>, dates: Dates)
    requires DatesRoundTrip(dates)
    ensures ReadDate(ShowDate(m, dates), dates) == Some(m)
  {
    if m.Some? {
      StripTrimmed(dates.show(m.value));
    }
  }

  /**
   A stored limit is read back as it was exactly when its texts survive, its notes are not present
   but empty, and its dates are in order even if its period ignores them.
   */
  lemma LineReadsBackIff(l: StoredLimit, dates: Dates)
    requires ValidStored(l) && DatesRoundTrip(dates)
    ensures LineToInput(ExportLine(l, dates), dates) == Some(InputOf(l)) <==>
            && TextBack(l.entity.id) == l.entity.id && TextBack(l.notes.GetOr("")) == l.notes.GetOr("")
            && l.notes != Some("") && PeriodFits(l.period, l.start, l.end)
  {
    PrintedCells(l, dates);
    FieldsReadBack(l, dates);
  }

  /** Every cell but the texts reads back as what was printed. */
  lemma FieldsReadBack(l: StoredLimit, dates: Dates)
    requires DatesRoundTrip(dates)
    ensures FieldsOf(CellsToPrint(l, dates), dates) ==
            Fields(Some(l.entity.level), TextBack(l.entity.id), Some(l.creditLimit), Some(l.period), Some(l.warningPct),
                   Some(l.enforce), Some(l.includeMembers), Some(l.hold), Some(l.countExisting),
                   Some(l.start), Some(l.end), TextBack(l.notes.GetOr("")))
  {
    LevelReadsBack(l.entity.level);
    PeriodReadsBack(l.period);
    IntReadsBack(l.creditLimit);
    IntReadsBack(l.warningPct);
    BoolReadsBack(l.enforce);
    BoolReadsBack(l.includeMembers);
    BoolReadsBack(l.hold);
    BoolReadsBack(l.countExisting);
    DateReadsBack(l.start, dates);
    DateReadsBack(l.end, dates);
  }

  /** Whatever is accepted would have passed as a limit entered by hand, and its dates are in order besides. */
  lemma AcceptedIsValid(line: Line, dates: Dates)
    requires LineToInput(line, dates).Some?
    ensures var d := LineToInput(line, dates).value;
            && d.entity.id != "" && 1 <= d.warningPct <= 100
            && (d.period == Custom ==> d.start.Some?)
            && (d.start.Some? && d.end.Some? ==> d.start.value.Before(d.end.value))
            && (d.includeMembers ==> d.entity.level == Group) && d.notes != Some("")
  {
  }

  function RequiredOnly(level: EntityType, id: string, credits: nat): Line {
    map[TypeColumn := LevelName(level), IdColumn := Neutralise(id), CreditColumn := Show(credits)]
  }

  lemma RequiredCells(level: EntityType, id: string, credits: nat)
    ensures CellsOf(RequiredOnly(level, id, credits)) ==
            Cells(LevelName(level), Neutralise(id), Show(credits), "", "", "", "", "", "", "", "", "")
  {
  }

  /** A row of the three required columns alone is a monthly limit that only monitors and warns at eighty percent. */
  lemma RequiredColumnsSuffice(level: EntityType, id: string, credits: nat, dates: Dates)
    requires TextBack(id) == id && id != ""
    ensures LineToInput(RequiredOnly(level, id, credits), dates)
            == Some(Input(Entity(level, id), credits, Monthly, 80, false, false, false, false, None, None, None))
  {
    RequiredCells(level, id, credits);
    LevelReadsBack(level);
    IntReadsBack(credits);
    EmptyCellsReadAs(dates);
  }

  lemma EmptyCellsReadAs(dates: Dates)
    ensures ReadBool("") == Some(false) && ReadDate("", dates) == Some(None) && ReadWarning("") == Some(80)
    ensures ReadPeriodCell("") == Some(Monthly) && Unneutralise(Strip("")) == ""
  {
    PeriodReadsBack(Monthly);
    assert Normal("") == "";
  }

  // ---------------------------------------------------------------------------- import

  type Known = map<Entity, string>

  type Limits = map<Entity, StoredLimit>

  datatype Parsed = Parsed(inputs: seq<Input>, seen: set<Entity>, errors: nat)

  predicate Blank(line: Line) {
    forall c :: c in line ==> line[c] == ""
  }

  /** A line without any text is skipped. */
  datatype Reading = Skipped | Refused | Accepted(input: Input)

  function ReadLine(line: Line, dates: Dates): Reading {
    if Blank(line) then Skipped
    else
      var input := LineToInput(line, dates);
      if input.None? then Refused else Accepted(input.value)
  }

  function ReadLines(lines: seq<Line>, dates: Dates): seq<Reading> {
    seq(|lines|, i requires 0 <= i < |lines| => ReadLine(lines[i], dates))
  }

  /** A second row for the same entity is an error, and so is an entity that is not known. */
  function Consider(p: Parsed, r: Reading, entities: Known): Parsed {
    match r
    case Skipped => p
    case Refused => p.(errors := p.errors + 1)
    case Accepted(input) =>
      if input.entity in p.seen then p.(errors := p.errors + 1)
      else if input.entity !in entities then p.(seen := p.seen + {input.entity}, errors := p.errors + 1)
      else Parsed(p.inputs + [input], p.seen + {input.entity}, p.errors)
  }

  function ConsiderAll(rs: seq<Reading>, entities: Known): Parsed {
    if rs == [] then Parsed([], {}, 0)
    else Consider(ConsiderAll(rs[..|rs| - 1], entities), rs[|rs| - 1], entities)
  }

  function ParseAll(lines: seq<Line>, entities: Known, dates: Dates): Parsed {
    ConsiderAll(ReadLines(lines, dates), entities)
  }

  /** A new limit is active; an existing one keeps its activity, label and counting of existing usage. */
  function ApplyOne(limits: Limits, d: Input, entities: Known): Limits {
    if d.entity in limits then
      limits[d.entity := limits[d.entity].(
        creditLimit := d.creditLimit, period := d.period, warningPct := d.warningPct, enforce := d.enforce,
        includeMembers := d.includeMembers, hold := d.hold, start := d.start, end := d.end, notes := d.notes)]
    else
      limits[d.entity := StoredLimit(
        d.entity, if d.entity in entities then Some(entities[d.entity]) else None,
        d.creditLimit, d.period, d.warningPct,
        d.enforce, true, d.includeMembers, d.hold, d.countExisting, d.start, d.end, d.notes)]
  }

  function ApplyAll(limits: Limits, inputs: seq<Input>, entities: Known): Limits {
    if inputs == [] then limits
    else ApplyOne(ApplyAll(limits, inputs[..|inputs| - 1], entities), inputs[|inputs| - 1], entities)
  }

  predicate Readable(table: Table) {
    REQUIRED <= table.headers && |table.lines| <= MAX_ROWS
  }

  datatype ImportResult = ImportResult(created: nat, updated: nat, skipped: nat, errors: nat)

  class LimitStore {
    var limits: Limits
    const entities: Known
    const dates: Dates

    constructor (entities: Known, dates: Dates)
      ensures limits == map[] && this.entities == entities && this.dates == dates
    {
      limits, this.entities, this.dates := map[], entities, dates;
    }

    /** Every row is read before anything is written; one bad row, and nothing is. */
    method Import(table: Table, dryRun: bool) returns (result: ImportResult)
      modifies this
      ensures var p := ParseAll(table.lines, entities, dates);
              && (result.errors > 0 <==> !Readable(table) || p.errors > 0)
              && limits == (if result.errors > 0 || dryRun then old(limits)
                   else ApplyAll(old(limits), p.inputs, entities))
              && (Readable(table) ==>
                    (result.errors > 0 <==> Rejected(ReadLines(table.lines, dates), entities)))
              && (Readable(table) && p.errors > 0 ==> result.skipped == |p.inputs| && result.errors == p.errors)
              && (result.errors == 0 ==> result.created + result.updated == |p.inputs|)
    {
      if !(REQUIRED <= table.headers) {
        return ImportResult(0, 0, 0, 1);
      }
      var p := Parsed([], {}, 0);
      var i := 0;
      while i < |table.lines|
        invariant 0 <= i <= |table.lines| && i <= MAX_ROWS && p == ParseAll(table.lines[..i], entities, dates)
        invariant limits == old(limits)
      {
        if i + 1 > MAX_ROWS {
          return ImportResult(0, 0, 0, p.errors + 1);
        }
        assert ReadLines(table.lines[..i + 1], dates)[..i] == ReadLines(table.lines[..i], dates);
        p := Consider(p, ReadLine(table.lines[i], dates), entities);
        i := i + 1;
      }
      assert table.lines[..i] == table.lines;
      RejectedIff(ReadLines(table.lines, dates), entities);
      if p.errors > 0 {
        return ImportResult(0, 0, |p.inputs|, p.errors);
      }
      result := Apply(p.inputs, dryRun);
    }

    method Apply(inputs: seq<Input>, dryRun: bool) returns (result: ImportResult)
      modifies this
      ensures limits == if dryRun then old(limits) else ApplyAll(old(limits), inputs, entities)
      ensures result.errors == 0 && result.created + result.updated == |inputs|
    {
      result := ImportResult(0, 0, 0, 0);
      var i := 0;
      while i < |inputs|
        invariant 0 <= i <= |inputs| && result.errors == 0 && result.created + result.updated == i
        invariant limits == if dryRun then old(limits) else ApplyAll(old(limits), inputs[..i], entities)
      {
        assert inputs[..i + 1][..i] == inputs[..i];
        var d := inputs[i];
        if d.entity in limits {
          result := result.(updated := result.updated + 1);
        } else {
          result := result.(created := result.created + 1);
        }
        if !dryRun {
          limits := ApplyOne(limits, d, entities);
        }
        i := i + 1;
      }
      assert inputs[..i] == inputs;
    }
  }

  // ------------------------------------------------------------------------ round trip

  function Inputs(limits: seq<StoredLimit>): seq<Input> {
    seq(|limits|, i requires 0 <= i < |limits| => InputOf(limits[i]))
  }

  function EntitiesOf(limits: seq<StoredLimit>): set<Entity> {
    set i | 0 <= i < |limits| :: limits[i].entity
  }

  ghost predicate OnePerEntity(limits: seq<StoredLimit>) {
    forall i, j :: 0 <= i < j < |limits| ==> limits[i].entity != limits[j].entity
  }

  lemma {:induction false} AllAccepted(rs: seq<Reading>, limits: seq<StoredLimit>, entities: Known)
    requires |rs| == |limits| && OnePerEntity(limits)
    requires forall i :: 0 <= i < |limits| ==> rs[i] == Accepted(InputOf(limits[i])) && limits[i].entity in entities
    ensures ConsiderAll(rs, entities) == Parsed(Inputs(limits), EntitiesOf(limits), 0)
    decreases |limits|
  {
    if limits != [] {
      var n := |limits| - 1;
      AllAccepted(rs[..n], limits[..n], entities);
      assert Inputs(limits) == Inputs(limits[..n]) + [InputOf(limits[n])];
      assert EntitiesOf(limits) == EntitiesOf(limits[..n]) + {limits[n].entity};
    }
  }

  /** The limit as an import recreates it: active, and labelled afresh. */
  function Recreated(l: StoredLimit, entities: Known): StoredLimit
    requires l.entity in entities
  {
    l.(name := Some(entities[l.entity]), active := true)
  }

  lemma OneIsRecreated(limits: Limits, l: StoredLimit, entities: Known)
    requires l.entity in entities && l.entity !in limits
    ensures ApplyOne(limits, InputOf(l), entities) == limits[l.entity := Recreated(l, entities)]
  {
  }

  lemma {:induction false} InputsRecreate(limits: seq<StoredLimit>, entities: Known)
    requires OnePerEntity(limits) && forall j :: 0 <= j < |limits| ==> limits[j].entity in entities
    ensures var back := ApplyAll(map[], Inputs(limits), entities);
            && back.Keys == EntitiesOf(limits)
            && forall i :: 0 <= i < |limits| ==>
                 limits[i].entity in back && back[limits[i].entity] == Recreated(limits[i], entities)
    decreases |limits|
  {
    if limits != [] {
      var n := |limits| - 1;
      InputsRecreate(limits[..n], entities);
      assert Inputs(limits)[..n] == Inputs(limits[..n]);
      assert EntitiesOf(limits) == EntitiesOf(limits[..n]) + {limits[n].entity};
      var before := ApplyAll(map[], Inputs(limits[..n]), entities);
      assert limits[n].entity !in before;
      OneIsRecreated(before, limits[n], entities);
      assert ApplyAll(map[], Inputs(limits), entities) == before[limits[n].entity := Recreated(limits[n], entities)];
      assert forall i :: 0 <= i < n ==> limits[..n][i] == limits[i];
    }
  }

  predicate Portable(l: StoredLimit) {
    && TextBack(l.entity.id) == l.entity.id && TextBack(l.notes.GetOr("")) == l.notes.GetOr("")
    && l.notes != Some("") && PeriodFits(l.period, l.start, l.end)
  }

  lemma PortableIsAccepted(l: StoredLimit, dates: Dates)
    requires ValidStored(l) && DatesRoundTrip(dates)
    ensures ReadLine(ExportLine(l, dates), dates) == Accepted(InputOf(l)) <==> Portable(l)
  {
    LineReadsBackIff(l, dates);
    PrintedIsNotBlank(l, dates);
  }

  /**
   Importing an export where there are no limits yet recreates every limit, except that all of them
   become active and are labelled afresh.
   */
  lemma ExportThenImport(limits: seq<StoredLimit>, entities: Known, dates: Dates)
    requires DatesRoundTrip(dates) && |limits| <= MAX_ROWS && OnePerEntity(limits)
    requires forall i :: 0 <= i < |limits| ==>
        ValidStored(limits[i]) && Portable(limits[i]) && limits[i].entity in entities
    ensures var table := Export(limits, dates);
            var p := ParseAll(table.lines, entities, dates);
            var back := ApplyAll(map[], p.inputs, entities);
            && Readable(table) && p.errors == 0
            && back.Keys == EntitiesOf(limits)
            && forall i :: 0 <= i < |limits| ==>
                 limits[i].entity in back && back[limits[i].entity] == Recreated(limits[i], entities)
  {
    var rs := ReadLines(Lines(limits, dates), dates);
    forall i | 0 <= i < |limits| ensures rs[i] == Accepted(InputOf(limits[i])) {
      PortableIsAccepted(limits[i], dates);
    }
    AllAccepted(rs, limits, entities);
    InputsRecreate(limits, entities);
  }

  predicate Speaks(r: Reading, entity: Entity) {
    r.Accepted? && r.input.entity == entity
  }

  /** The row is refused, or about an entity that is unknown or that an earlier row was about. */
  ghost predicate Faulty(rs: seq<Reading>, i: nat, entities: Known)
    requires i < |rs|
  {
    || rs[i] == Refused
    || (rs[i].Accepted? && rs[i].input.entity !in entities)
    || (rs[i].Accepted? && exists j :: 0 <= j < i && Speaks(rs[j], rs[i].input.entity))
  }

  ghost predicate Rejected(rs: seq<Reading>, entities: Known) {
    exists i :: 0 <= i < |rs| && Faulty(rs, i, entities)
  }

  lemma {:induction false} SeenIsSpokenOf(rs: seq<Reading>, entities: Known, entity: Entity)
    ensures entity in ConsiderAll(rs, entities).seen <==> exists j :: 0 <= j < |rs| && Speaks(rs[j], entity)
    decreases |rs|
  {
    if rs != [] {
      var n := |rs| - 1;
      SeenIsSpokenOf(rs[..n], entities, entity);
      if Speaks(rs[n], entity) {
        assert 0 <= n < |rs|;
      }
      assert forall j :: 0 <= j < n ==> rs[..n][j] == rs[j];
    }
  }

  /** A table is rejected exactly when some row is refused, about an unknown entity, or about one twice. */
  lemma {:induction false} RejectedIff(rs: seq<Reading>, entities: Known)
    ensures ConsiderAll(rs, entities).errors > 0 <==> Rejected(rs, entities)
    decreases |rs|
  {
    if rs != [] {
      var n := |rs| - 1;
      RejectedIff(rs[..n], entities);
      RejectedSnoc(rs, entities);
      LastIsFaultyIff(rs, entities);
    }
  }

  lemma RefusedRejects(rs: seq<Reading>, i: nat, entities: Known)
    requires i < |rs| && rs[i] == Refused
    ensures Rejected(rs, entities)
  {
    assert Faulty(rs, i, entities);
  }

  lemma RejectedSnoc(rs: seq<Reading>, entities: Known)
    requires rs != []
    ensures Rejected(rs, entities) <==> Rejected(rs[..|rs| - 1], entities) || Faulty(rs, |rs| - 1, entities)
  {
    var n := |rs| - 1;
    assert forall j :: 0 <= j < n ==> rs[..n][j] == rs[j];
    assert forall i :: 0 <= i < n ==> (Faulty(rs[..n], i, entities) <==> Faulty(rs, i, entities));
  }

  lemma LastIsFaultyIff(rs: seq<Reading>, entities: Known)
    requires rs != []
    ensures Faulty(rs, |rs| - 1, entities) <==>
              ConsiderAll(rs, entities).errors > ConsiderAll(rs[..|rs| - 1], entities).errors
  {
    var n := |rs| - 1;
    assert forall j :: 0 <= j < n ==> rs[..n][j] == rs[j];
    if rs[n].Accepted? {
      SeenIsSpokenOf(rs[..n], entities, rs[n].input.entity);
    }
  }

  /** One limit whose dates are out of order, though its period ignores them, makes the whole export unimportable. */
  lemma UnorderedDatesRefuseTheExport(limits: seq<StoredLimit>, entities: Known, dates: Dates, i: nat)
    requires DatesRoundTrip(dates) && i < |limits| && ValidStored(limits[i])
    requires !PeriodFits(limits[i].period, limits[i].start, limits[i].end)
    ensures ParseAll(Export(limits, dates).lines, entities, dates).errors > 0
  {
    UnorderedDatesRefuseTheLine(limits[i], dates);
    PrintedIsNotBlank(limits[i], dates);
    var rs := ReadLines(Lines(limits, dates), dates);
    assert rs[i] == Refused;
    RefusedRejects(rs, i, entities);
    RejectedIff(rs, entities);
  }

  lemma UnorderedDatesRefuseTheLine(l: StoredLimit, dates: Dates)
    requires DatesRoundTrip(dates) && ValidStored(l) && !PeriodFits(l.period, l.start, l.end)
    ensures LineToInput(ExportLine(l, dates), dates) == None
  {
    PrintedCells(l, dates);
    FieldsReadBack(l, dates);
  }

  /** Importing over an existing limit makes it say what the row says exactly when both count existing usage alike. */
  lemma UpdateTakesEffectIff(limits: Limits, d: Input, entities: Known)
    requires forall e :: e in limits ==> limits[e].entity == e
    ensures var after := ApplyOne(limits, d, entities);
            && (InputOf(after[d.entity]) == d <==>
                 d.entity !in limits || limits[d.entity].countExisting == d.countExisting)
            && (d.entity in limits ==> after[d.entity].active == limits[d.entity].active)
            && forall e :: e != d.entity ==> (e in after <==> e in limits) && (e in limits ==> after[e] == limits[e])
  {
  }
}
