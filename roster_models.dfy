/**
  Roster-profile assembly: the tables parsed from one team's roster page become a
  `Team` whose `Player`s are enriched from the page's small tables (international
  slots, Designated Players, unavailable players).
*/
module RosterModels {
  import opened Wrappers
  import opened Text
  import opened RosterEnums

  // ---------------------------------------------------------------------------
  // Enum-typed fields

  /** A field typed `E | str | None`: no value, a recognised member, or text kept verbatim. */
  datatype EnumField<E> = Absent | Member(member: E) | Raw(text: string)

  /**
    The rule shared by the roster-designation, current-status and roster-construction-model
    validators: an empty or missing value is None, a value the enum accepts becomes that
    member, and anything else is kept as the original string.
  */
  function ValidateEnum<E>(input: Option<string>, members: seq<E>, value: E -> string): EnumField<E> {
    match input
    case None => Absent
    case Some(s) =>
      if s == "" then Absent
      else
        match Construct(members, value, s)
        case Some(m) => Member(m)
        case None => Raw(s)
  }

  function ValidateRosterDesignation(input: Option<string>): EnumField<RosterDesignation> {
    ValidateEnum(input, RosterDesignations, DesignationValue)
  }

  function ValidateCurrentStatus(input: Option<string>): EnumField<CurrentStatus> {
    ValidateEnum(input, CurrentStatuses, StatusValue)
  }

  function ValidateRosterConstructionModel(input: Option<string>): EnumField<RosterConstructionModel> {
    ValidateEnum(input, RosterConstructionModels, ModelValue)
  }

  /**
    Python's `field == E.MEMBER`: a string enum member equals its own value, so a raw
    string compares equal when it is exactly the member's value.
  */
  predicate FieldIs<E(==)>(f: EnumField<E>, m: E, value: E -> string) {
    match f
    case Absent => false
    case Member(x) => x == m
    case Raw(s) => s == value(m)
  }

  // ---------------------------------------------------------------------------
  // Parsed tables and the roster profile

  datatype SmallTableRow = SmallTableRow(playerName: Option<string>)

  datatype SmallTable = SmallTable(title: string, rows: seq<SmallTableRow>)

  datatype LargeTableRow = LargeTableRow(
    playerName: string,
    rosterDesignation: Option<string>,
    currentStatus: Option<string>,
    contractThrough: Option<string>,
    optionYears: Option<string>)

  datatype LargeTable = LargeTable(title: string, rows: seq<LargeTableRow>)

  datatype Date = Date(year: int, month: int, day: int)

  datatype RosterProfile = RosterProfile(
    teamName: string,
    releaseDate: Date,
    rosterConstructionModel: Option<string>,
    gamAvailable: Option<int>,
    smallTables: seq<SmallTable>,
    largeTables: seq<LargeTable>)

  // ---------------------------------------------------------------------------
  // Players and teams

  datatype PlayerRecord = PlayerRecord(
    id: Option<string>,
    name: string,
    rosterSlot: RosterSlot,
    rosterDesignation: EnumField<RosterDesignation>,
    currentStatus: EnumField<CurrentStatus>,
    contractThrough: Option<string>,
    optionYears: Option<string>,
    permanentTransferOption: Option<bool>,
    internationalSlot: bool,
    convertibleWithTam: Option<bool>,
    unavailable: bool,
    canadianExemption: Option<bool>)

  /** A player whose enrichment flags are updated in place. */
  class Player {
    var id: Option<string>
    var name: string
    var rosterSlot: RosterSlot
    var rosterDesignation: EnumField<RosterDesignation>
    var currentStatus: EnumField<CurrentStatus>
    var contractThrough: Option<string>
    var optionYears: Option<string>
    var permanentTransferOption: Option<bool>
    var internationalSlot: bool
    var convertibleWithTam: Option<bool>
    var unavailable: bool
    var canadianExemption: Option<bool>

    function Record(): PlayerRecord
      reads this
    {
      PlayerRecord(id, name, rosterSlot, rosterDesignation, currentStatus, contractThrough,
                   optionYears, permanentTransferOption, internationalSlot, convertibleWithTam,
                   unavailable, canadianExemption)
    }

    constructor (r: PlayerRecord)
      ensures Record() == r
    {
      id, name, rosterSlot := r.id, r.name, r.rosterSlot;
      rosterDesignation, currentStatus := r.rosterDesignation, r.currentStatus;
      contractThrough, optionYears := r.contractThrough, r.optionYears;
      permanentTransferOption, internationalSlot := r.permanentTransferOption, r.internationalSlot;
      convertibleWithTam, unavailable := r.convertibleWithTam, r.unavailable;
      canadianExemption := r.canadianExemption;
    }
  }

  function Records(ps: seq<Player>): (r: seq<PlayerRecord>)
    reads set p | p in ps
    ensures |r| == |ps| && forall k :: 0 <= k < |ps| ==> r[k] == ps[k].Record()
  {
    if ps == [] then [] else Records(ps[..|ps| - 1]) + [ps[|ps| - 1].Record()]
  }

  datatype TeamRecord = TeamRecord(
    id: Option<string>,
    name: string,
    rosterConstructionModel: EnumField<RosterConstructionModel>,
    players: seq<PlayerRecord>,
    internationalSlots: int,
    gamAvailable: Option<int>)

  /** A team; its id and name are overwritten once the catalog resolves it. */
  class Team {
    var id: Option<string>
    var name: string
    var rosterConstructionModel: EnumField<RosterConstructionModel>
    var players: seq<Player>
    var internationalSlots: int
    var gamAvailable: Option<int>

    function Record(): TeamRecord
      reads this, set p | p in players
    {
      TeamRecord(id, name, rosterConstructionModel, Records(players), internationalSlots, gamAvailable)
    }

    constructor (name: string, model: EnumField<RosterConstructionModel>, players: seq<Player>,
                 internationalSlots: int, gamAvailable: Option<int>)
      ensures this.id == None && this.name == name && this.rosterConstructionModel == model
      ensures this.players == players && this.internationalSlots == internationalSlots
      ensures this.gamAvailable == gamAvailable
    {
      this.id := None;
      this.name := name;
      this.rosterConstructionModel := model;
      this.players := players;
      this.internationalSlots := internationalSlots;
      this.gamAvailable := gamAvailable;
    }
  }

  // ---------------------------------------------------------------------------
  // Matching rows of the small tables

  /** Python's `str(x)` for an optional string: None prints as "None". */
  function PyStr(o: Option<string>): string {
    match o
    case None => "None"
    case Some(s) => s
  }

  /** `table.title.lower().startswith(word)`. */
  predicate TitleStarts(t: SmallTable, word: string) {
    StartsWith(Lower(t.title), word)
  }

  /** `str(row.player_name).lower().startswith(name.lower())`. */
  predicate NameMatches(row: SmallTableRow, name: string) {
    StartsWith(Lower(PyStr(row.playerName)), Lower(name))
  }

  /** `mark in str(row.player_name)`. */
  predicate Marked(row: SmallTableRow, mark: char) {
    mark in PyStr(row.playerName)
  }

  /** The index of the first row of `rows[from..]` whose name matches. */
  function FirstMatchFrom(rows: seq<SmallTableRow>, name: string, from: nat): (r: Option<nat>)
    requires from <= |rows|
    ensures r.Some? ==> from <= r.value < |rows| && NameMatches(rows[r.value], name)
                        && forall k :: from <= k < r.value ==> !NameMatches(rows[k], name)
    ensures r.None? ==> forall k :: from <= k < |rows| ==> !NameMatches(rows[k], name)
    decreases |rows| - from
  {
    if from == |rows| then None
    else if NameMatches(rows[from], name) then Some(from)
    else FirstMatchFrom(rows, name, from + 1)
  }

  function FirstMatch(rows: seq<SmallTableRow>, name: string): Option<nat> {
    FirstMatchFrom(rows, name, 0)
  }

  // ---------------------------------------------------------------------------
  // The enrichment steps, as functions of the player record

  /** One table of `_enrich_from_international_slots`. */
  function InternationalTableStep(p: PlayerRecord, t: SmallTable): Result<PlayerRecord> {
    if !TitleStarts(t, "international") then Ok(p)
    else
      var q := if exists row :: row in t.rows && Marked(row, '+')
               then p.(canadianExemption := Some(false)) else p;
      match FirstMatch(t.rows, p.name)
      case None => Ok(q)
      case Some(i) =>
        match t.rows[i].playerName
        case None => Err(NoneNotSearchable)
        case Some(n) =>
          Ok(q.(internationalSlot := true,
                canadianExemption := if '+' in n then Some(true) else q.canadianExemption))
  }

  function InternationalEnriched(p: PlayerRecord, small: seq<SmallTable>): Result<PlayerRecord> {
    FoldResult(p, small, InternationalTableStep)
  }

  /** One row of a "designated" table: a matching row marked `^` is not TAM-convertible. */
  function DesignatedRowStep(p: PlayerRecord, row: SmallTableRow): Result<PlayerRecord> {
    if !NameMatches(row, p.name) then Ok(p)
    else
      match row.playerName
      case None => Err(NoneNotSearchable)
      case Some(n) => Ok(if '^' in n then p.(convertibleWithTam := Some(false)) else p)
  }

  function DesignatedTableStep(p: PlayerRecord, t: SmallTable): Result<PlayerRecord> {
    if TitleStarts(t, "designated") then FoldResult(p, t.rows, DesignatedRowStep) else Ok(p)
  }

  /** `_enrich_from_designated_players`: only a Designated Player is touched. */
  function DesignatedEnriched(p: PlayerRecord, small: seq<SmallTable>): Result<PlayerRecord> {
    if FieldIs(p.rosterDesignation, Dp, DesignationValue)
    then FoldResult(p.(convertibleWithTam := Some(true)), small, DesignatedTableStep)
    else Ok(p)
  }

  function UnavailableRowStep(p: PlayerRecord, row: SmallTableRow): Result<PlayerRecord> {
    Ok(if NameMatches(row, p.name) then p.(unavailable := true) else p)
  }

  function UnavailableTableStep(p: PlayerRecord, t: SmallTable): Result<PlayerRecord> {
    if TitleStarts(t, "unavailable") then FoldResult(p, t.rows, UnavailableRowStep) else Ok(p)
  }

  function UnavailableEnriched(p: PlayerRecord, small: seq<SmallTable>): Result<PlayerRecord> {
    FoldResult(p, small, UnavailableTableStep)
  }

  /** Only a loan player keeps a permanent-transfer option. */
  function LoanRule(p: PlayerRecord): PlayerRecord {
    p.(permanentTransferOption :=
         if FieldIs(p.currentStatus, LoanPlayer, StatusValue) then p.permanentTransferOption else None)
  }

  /** `_enrich_player`: the three enrichers in order, then the loan rule. */
  function Enriched(p: PlayerRecord, small: seq<SmallTable>): Result<PlayerRecord> {
    match InternationalEnriched(p, small)
    case Err(e) => Err(e)
    case Ok(a) =>
      match DesignatedEnriched(a, small)
      case Err(e) => Err(e)
      case Ok(b) =>
        match UnavailableEnriched(b, small)
        case Err(e) => Err(e)
        case Ok(c) => Ok(LoanRule(c))
  }

  // ---------------------------------------------------------------------------
  // Building players from the large tables

  function StripOption(o: Option<string>): Option<string> {
    match o
    case None => None
    case Some(s) => Some(Strip(s))
  }

  /**
    `Player(...)` from one large-table row: the table title must name a roster slot,
    string fields are stripped, and the permanent-transfer option starts as "the option
    years text starts with PT".
  */
  function NewPlayer(row: LargeTableRow, title: string): Result<PlayerRecord> {
    match LookupRosterSlot(title)
    case None => Err(NotAMember)
    case Some(slot) =>
      Ok(PlayerRecord(
           id := None,
           name := Strip(row.playerName),
           rosterSlot := slot,
           rosterDesignation := ValidateRosterDesignation(row.rosterDesignation),
           currentStatus := ValidateCurrentStatus(row.currentStatus),
           contractThrough := StripOption(row.contractThrough),
           optionYears := StripOption(row.optionYears),
           permanentTransferOption := Some(StartsWith(PyStr(row.optionYears), "PT")),
           internationalSlot := false,
           convertibleWithTam := None,
           unavailable := false,
           canadianExemption := None))
  }

  /** A large-table row together with the title of its table. */
  datatype Entry = Entry(title: string, row: LargeTableRow)

  /** The rows of one large table, each paired with the table's title. */
  function RowEntries(title: string, rows: seq<LargeTableRow>): (r: seq<Entry>)
    ensures |r| == |rows|
    decreases |rows|
  {
    if rows == [] then [] else RowEntries(title, rows[..|rows| - 1]) + [Entry(title, rows[|rows| - 1])]
  }

  /** Every row of every large table, table by table and row by row. */
  function Entries(tables: seq<LargeTable>): seq<Entry>
    decreases |tables|
  {
    if tables == [] then [] else Entries(tables[..|tables| - 1]) + RowEntries(tables[|tables| - 1].title, tables[|tables| - 1].rows)
  }

  function PlayerFrom(small: seq<SmallTable>, e: Entry): Result<PlayerRecord> {
    match NewPlayer(e.row, e.title)
    case Err(x) => Err(x)
    case Ok(p) => Enriched(p, small)
  }

  /** The player `_get_players` builds from one entry, as a function value. */
  function PlayerBuilder(small: seq<SmallTable>): Entry -> Result<PlayerRecord> {
    e => PlayerFrom(small, e)
  }

  /** A function value that agrees with `PlayerFrom`, known to the caller only by that. */
  lemma AgreesWithPlayerFrom(small: seq<SmallTable>) returns (build: Entry -> Result<PlayerRecord>)
    ensures forall e {:trigger PlayerFrom(small, e)} :: build(e) == PlayerFrom(small, e)
  {
    build := PlayerBuilder(small);
  }

  /** Any function that agrees with `PlayerFrom` builds the same player list. */
  lemma PlayersFromCollect(small: seq<SmallTable>, entries: seq<Entry>, build: Entry -> Result<PlayerRecord>)
    requires forall e {:trigger PlayerFrom(small, e)} :: build(e) == PlayerFrom(small, e)
    ensures PlayersFrom(small, entries) == Collect(entries, build)
  {
    forall k | 0 <= k < |entries|
      ensures build(entries[k]) == PlayerBuilder(small)(entries[k])
    {
      assert build(entries[k]) == PlayerFrom(small, entries[k]);
    }
    CollectCongruent(entries, build, PlayerBuilder(small));
  }

  /** `_get_players` on a list of entries: one enriched player per entry, or the first error. */
  function PlayersFrom(small: seq<SmallTable>, entries: seq<Entry>): Result<seq<PlayerRecord>> {
    Collect(entries, PlayerBuilder(small))
  }

  /**
    `_get_international_slots`: the first digit run of the first "international" table
    title that has one.
  */
  function InternationalSlots(small: seq<SmallTable>): (r: Option<nat>)
    ensures r.None? <==> forall k :: 0 <= k < |small| && TitleStarts(small[k], "international")
                                     ==> FirstDigitRun(small[k].title).None?
    decreases |small|
  {
    if small == [] then None
    else if TitleStarts(small[0], "international") && FirstDigitRun(small[0].title).Some?
    then FirstDigitRun(small[0].title)
    else
      var r := InternationalSlots(small[1..]);
      assert forall k :: 1 <= k < |small| ==> small[k] == small[1..][k - 1];
      r
  }

  /** `to_team`, or the error that stops it. */
  function TeamFrom(profile: RosterProfile): Result<TeamRecord> {
    match PlayersFrom(profile.smallTables, Entries(profile.largeTables))
    case Err(e) => Err(e)
    case Ok(players) =>
      match InternationalSlots(profile.smallTables)
      case None => Err(MissingInternationalSlots)
      case Some(slots) =>
        Ok(TeamRecord(None, Strip(profile.teamName),
                      ValidateRosterConstructionModel(profile.rosterConstructionModel),
                      players, slots, profile.gamAvailable))
  }

  // ---------------------------------------------------------------------------
  // The methods, which update players in place

  method EnrichFromInternationalSlots(profile: RosterProfile, player: Player) returns (err: Option<Error>)
    modifies player
    ensures match InternationalEnriched(old(player.Record()), profile.smallTables)
            case Ok(q) => err.None? && player.Record() == q
            case Err(e) => err == Some(e)
  {
    err := None;
    var small := profile.smallTables;
    ghost var start := player.Record();
    for i := 0 to |small|
      invariant err.None?
      invariant FoldResult(start, small[..i], InternationalTableStep) == Ok(player.Record())
    {
      FoldResultSnoc(start, small[..i], small[i], InternationalTableStep);
      assert small[..i + 1] == small[..i] + [small[i]];
      err := EnrichFromInternationalTable(small[i], player);
      if err.Some? {
        FoldResultErrSticky(start, small[..i + 1], small[i + 1..], InternationalTableStep);
        assert small[..i + 1] + small[i + 1..] == small;
        return;
      }
    }
    assert small[..|small|] == small;
  }

  /** The body of `_enrich_from_international_slots`' loop, for one small table. */
  method EnrichFromInternationalTable(t: SmallTable, player: Player) returns (err: Option<Error>)
    modifies player
    ensures match InternationalTableStep(old(player.Record()), t)
            case Ok(q) => err.None? && player.Record() == q
            case Err(e) => err == Some(e)
  {
    err := None;
    if StartsWith(Lower(t.title), "international") {
      if exists row :: row in t.rows && Marked(row, '+') {
        player.canadianExemption := Some(false);
      }
      var j := 0;
      while j < |t.rows| && !NameMatches(t.rows[j], player.name)
        invariant 0 <= j <= |t.rows|
        invariant FirstMatch(t.rows, player.name) == FirstMatchFrom(t.rows, player.name, j)
      {
        j := j + 1;
      }
      if j < |t.rows| {
        player.internationalSlot := true;
        match t.rows[j].playerName {
          case None =>
            err := Some(NoneNotSearchable);
          case Some(n) =>
            if '+' in n {
              player.canadianExemption := Some(true);
            }
        }
      }
    }
  }

  method EnrichFromDesignatedPlayers(profile: RosterProfile, player: Player) returns (err: Option<Error>)
    modifies player
    ensures match DesignatedEnriched(old(player.Record()), profile.smallTables)
            case Ok(q) => err.None? && player.Record() == q
            case Err(e) => err == Some(e)
  {
    err := None;
    if FieldIs(player.rosterDesignation, Dp, DesignationValue) {
      player.convertibleWithTam := Some(true);
      var small := profile.smallTables;
      ghost var start := player.Record();
      for i := 0 to |small|
        invariant err.None?
        invariant FoldResult(start, small[..i], DesignatedTableStep) == Ok(player.Record())
      {
        FoldResultSnoc(start, small[..i], small[i], DesignatedTableStep);
        assert small[..i + 1] == small[..i] + [small[i]];
        if StartsWith(Lower(small[i].title), "designated") {
          err := EnrichFromDesignatedTable(small[i].rows, player);
          if err.Some? {
            FoldResultErrSticky(start, small[..i + 1], small[i + 1..], DesignatedTableStep);
            assert small[..i + 1] + small[i + 1..] == small;
            return;
          }
        }
      }
      assert small[..|small|] == small;
    }
  }

  /** The inner loop of `_enrich_from_designated_players`, over the rows of one table. */
  method EnrichFromDesignatedTable(rows: seq<SmallTableRow>, player: Player) returns (err: Option<Error>)
    modifies player
    ensures match FoldResult(old(player.Record()), rows, DesignatedRowStep)
            case Ok(q) => err.None? && player.Record() == q
            case Err(e) => err == Some(e)
  {
    ghost var start := player.Record();
    for j := 0 to |rows|
      invariant FoldResult(start, rows[..j], DesignatedRowStep) == Ok(player.Record())
    {
      var row := rows[j];
      assert FoldResult(start, rows[..j + 1], DesignatedRowStep) == DesignatedRowStep(player.Record(), row) by {
        FoldResultSnoc(start, rows[..j], row, DesignatedRowStep);
        assert rows[..j + 1] == rows[..j] + [row];
      }
      if NameMatches(row, player.name) {
        match row.playerName {
          case None =>
            assert FoldResult(start, rows, DesignatedRowStep) == Err(NoneNotSearchable) by {
              FoldResultErrSticky(start, rows[..j + 1], rows[j + 1..], DesignatedRowStep);
              assert rows[..j + 1] + rows[j + 1..] == rows;
            }
            return Some(NoneNotSearchable);
          case Some(n) =>
            if '^' in n {
              player.convertibleWithTam := Some(false);
            }
        }
      }
    }
    assert rows[..|rows|] == rows;
    return None;
  }

  method EnrichFromUnavailablePlayers(profile: RosterProfile, player: Player)
    modifies player
    ensures UnavailableEnriched(old(player.Record()), profile.smallTables) == Ok(player.Record())
  {
    var small := profile.smallTables;
    ghost var start := player.Record();
    for i := 0 to |small|
      invariant FoldResult(start, small[..i], UnavailableTableStep) == Ok(player.Record())
    {
      var t := small[i];
      FoldResultSnoc(start, small[..i], t, UnavailableTableStep);
      assert small[..i + 1] == small[..i] + [t];
      if StartsWith(Lower(t.title), "unavailable") {
        EnrichFromUnavailableTable(t.rows, player);
      }
    }
    assert small[..|small|] == small;
  }

  /** The inner loop of `_enrich_from_unavailable_players`, over the rows of one table. */
  method EnrichFromUnavailableTable(rows: seq<SmallTableRow>, player: Player)
    modifies player
    ensures FoldResult(old(player.Record()), rows, UnavailableRowStep) == Ok(player.Record())
  {
    ghost var start := player.Record();
    for j := 0 to |rows|
      invariant FoldResult(start, rows[..j], UnavailableRowStep) == Ok(player.Record())
    {
      var row := rows[j];
      FoldResultSnoc(start, rows[..j], row, UnavailableRowStep);
      assert rows[..j + 1] == rows[..j] + [row];
      if NameMatches(row, player.name) {
        player.unavailable := true;
      }
    }
    assert rows[..|rows|] == rows;
  }

  method EnrichPlayer(profile: RosterProfile, player: Player) returns (err: Option<Error>)
    modifies player
    ensures match Enriched(old(player.Record()), profile.smallTables)
            case Ok(q) => err.None? && player.Record() == q
            case Err(e) => err == Some(e)
  {
    err := EnrichFromInternationalSlots(profile, player);
    if err.Some? {
      return;
    }
    err := EnrichFromDesignatedPlayers(profile, player);
    if err.Some? {
      return;
    }
    EnrichFromUnavailablePlayers(profile, player);
    player.permanentTransferOption :=
      if FieldIs(player.currentStatus, LoanPlayer, StatusValue) then player.permanentTransferOption else None;
  }

  method GetPlayers(profile: RosterProfile) returns (players: seq<Player>, err: Option<Error>)
    ensures match PlayersFrom(profile.smallTables, Entries(profile.largeTables))
            case Ok(rs) => err.None? && Records(players) == rs
                           && forall k :: 0 <= k < |players| ==> fresh(players[k])
            case Err(e) => err == Some(e)
  {
    players, err := [], None;
    var small := profile.smallTables;
    var tables := profile.largeTables;
    ghost var build := AgreesWithPlayerFrom(small);
    ghost var recs: seq<PlayerRecord> := [];
    for i := 0 to |tables|
      invariant err.None?
      invariant AllOk(Entries(tables[..i]), build, recs)
      invariant |recs| == |players| && forall k :: 0 <= k < |players| ==> players[k].Record() == recs[k]
      invariant forall k :: 0 <= k < |players| ==> fresh(players[k])
    {
      assert tables[..i + 1][..i] == tables[..i];
      players, err, recs := GetTablePlayers(profile, tables[i], Entries(tables[..i]), players, recs, build);
      if err.Some? {
        ghost var k :| FirstErrAt(Entries(tables[..i + 1]), build, k, err.value);
        assert tables == tables[..i + 1] + tables[i + 1..];
        EntriesAppend(tables[..i + 1], tables[i + 1..]);
        FirstErrAtExtend(Entries(tables[..i + 1]), Entries(tables[i + 1..]), build, k, err.value);
        CollectFirstErrAt(Entries(tables), build, k, err.value);
        PlayersFromCollect(small, Entries(tables), build);
        return [], err;
      }
    }
    assert tables[..|tables|] == tables;
    CollectAllOk(Entries(tables), build, recs);
    PlayersFromCollect(small, Entries(tables), build);
    assert Records(players) == recs;
  }

  /**
    The inner loop of `_get_players`: the players of one large table, appended in row
    order. `build` is `PlayerBuilder(profile.smallTables)` and `recs` the records of the
    players, both carried as ghost values.
  */
  method GetTablePlayers(profile: RosterProfile, t: LargeTable, ghost done: seq<Entry>, players0: seq<Player>,
                         ghost recs0: seq<PlayerRecord>, ghost build: Entry -> Result<PlayerRecord>)
    returns (players: seq<Player>, err: Option<Error>, ghost recs: seq<PlayerRecord>)
    requires forall e {:trigger PlayerFrom(profile.smallTables, e)} :: build(e) == PlayerFrom(profile.smallTables, e)
    requires AllOk(done, build, recs0)
    requires |recs0| == |players0| && forall k :: 0 <= k < |players0| ==> players0[k].Record() == recs0[k]
    ensures err.None? ==> AllOk(done + RowEntries(t.title, t.rows), build, recs)
                          && |recs| == |players| && (forall k :: 0 <= k < |players| ==> players[k].Record() == recs[k])
                          && players[..|players0|] == players0
                          && forall k :: |players0| <= k < |players| ==> fresh(players[k])
    ensures err.Some? ==> exists k :: FirstErrAt(done + RowEntries(t.title, t.rows), build, k, err.value)
  {
    players, err, recs := players0, None, recs0;
    assert done + RowEntries(t.title, t.rows[..0]) == done;
    for j := 0 to |t.rows|
      invariant AllOk(done + RowEntries(t.title, t.rows[..j]), build, recs)
      invariant |recs| == |players| && forall k :: 0 <= k < |players| ==> players[k].Record() == recs[k]
      invariant |players0| <= |players| && players[..|players0|] == players0
      invariant forall k :: |players0| <= k < |players| ==> fresh(players[k])
    {
      var e := Entry(t.title, t.rows[j]);
      ghost var prefix := done + RowEntries(t.title, t.rows[..j]);
      assert done + RowEntries(t.title, t.rows[..j + 1]) == prefix + [e] by {
        assert t.rows[..j + 1][..j] == t.rows[..j];
      }
      var r := BuildPlayer(profile, e, build);
      if r.Err? {
        RowFails(done, t, j, build, recs, r.error);
        return players0, Some(r.error), recs0;
      }
      var p := r.value;
      AllOkSnoc(prefix, build, recs, e, p.Record());
      players, recs := players + [p], recs + [p.Record()];
    }
    assert t.rows[..|t.rows|] == t.rows;
  }

  /** A failing row of a large table stops `_get_players` with that row's error. */
  lemma RowFails(done: seq<Entry>, t: LargeTable, j: nat, build: Entry -> Result<PlayerRecord>,
                 recs: seq<PlayerRecord>, err: Error)
    requires j < |t.rows| && AllOk(done + RowEntries(t.title, t.rows[..j]), build, recs)
    requires build(Entry(t.title, t.rows[j])) == Err(err)
    ensures exists k :: FirstErrAt(done + RowEntries(t.title, t.rows), build, k, err)
  {
    var prefix, e := done + RowEntries(t.title, t.rows[..j]), Entry(t.title, t.rows[j]);
    assert done + RowEntries(t.title, t.rows[..j + 1]) == prefix + [e] by {
      assert t.rows[..j + 1][..j] == t.rows[..j];
    }
    AllOkThenErr(prefix, build, recs, e, err);
    assert t.rows == t.rows[..j + 1] + t.rows[j + 1..];
    RowEntriesAppend(t.title, t.rows[..j + 1], t.rows[j + 1..]);
    assert done + RowEntries(t.title, t.rows) == (prefix + [e]) + RowEntries(t.title, t.rows[j + 1..]);
    FirstErrAtExtend(prefix + [e], RowEntries(t.title, t.rows[j + 1..]), build, |prefix|, err);
  }

  /** One row of `_get_players`: a new `Player`, enriched in place. */
  method BuildPlayer(profile: RosterProfile, e: Entry, ghost build: Entry -> Result<PlayerRecord>)
    returns (r: Result<Player>)
    requires forall x {:trigger PlayerFrom(profile.smallTables, x)} :: build(x) == PlayerFrom(profile.smallTables, x)
    ensures match build(e)
            case Ok(q) => r.Ok? && fresh(r.value) && r.value.Record() == q
            case Err(x) => r == Err(x)
  {
    assert build(e) == PlayerFrom(profile.smallTables, e);
    var record := NewPlayer(e.row, e.title);
    if record.Err? {
      return Err(record.error);
    }
    var p := new Player(record.value);
    var err := EnrichPlayer(profile, p);
    if err.Some? {
      return Err(err.value);
    }
    return Ok(p);
  }

  method ToTeam(profile: RosterProfile) returns (r: Result<Team>)
    ensures match TeamFrom(profile)
            case Ok(t) => r.Ok? && fresh(r.value) && r.value.Record() == t
                          && forall p :: p in r.value.players ==> fresh(p)
            case Err(e) => r == Err(e)
  {
    var slots := InternationalSlots(profile.smallTables);
    var players, err := GetPlayers(profile);
    if err.Some? {
      return Err(err.value);
    }
    if slots.None? {
      return Err(MissingInternationalSlots);
    }
    var team := new Team(Strip(profile.teamName),
                         ValidateRosterConstructionModel(profile.rosterConstructionModel),
                         players, slots.value, profile.gamAvailable);
    return Ok(team);
  }

  // ---------------------------------------------------------------------------
  // Helper lemmas for the methods

  lemma {:induction false} EntriesAppend(a: seq<LargeTable>, b: seq<LargeTable>)
    ensures Entries(a + b) == Entries(a) + Entries(b)
    decreases |b|
  {
    if b == [] {
      assert a + b == a;
    } else {
      var c := a + b;
      assert c[..|c| - 1] == a + b[..|b| - 1];
      EntriesAppend(a, b[..|b| - 1]);
    }
  }

  lemma {:induction false} RowEntriesAppend(title: string, a: seq<LargeTableRow>, b: seq<LargeTableRow>)
    ensures RowEntries(title, a + b) == RowEntries(title, a) + RowEntries(title, b)
    decreases |b|
  {
    if b == [] {
      assert a + b == a;
    } else {
      var c := a + b;
      assert c[..|c| - 1] == a + b[..|b| - 1];
      RowEntriesAppend(title, a, b[..|b| - 1]);
    }
  }
}
