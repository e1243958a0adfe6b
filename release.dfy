/**
  A release of roster profiles: every page of the document whose extracted text carries the
  senior-roster heading becomes a team. The release date is the one read from the last such
  page. Then each team name is matched against the league's team catalogue; a name that
  matches exactly one catalogue entry closely enough takes that entry's name and id.
*/
module Release {
  import opened Wrappers
  import opened Text
  import opened RosterModels
  import opened PdfModels
  import opened PdfReader

  /** The heading that marks a page as a team's roster profile. */
  const RosterHeading: string := "SENIOR ROSTER"

  /** `score_cutoff` and `limit` of the fuzzy catalogue search. */
  const ScoreCutoff: int := 86
  const MatchLimit: nat := 2

  /** What the document supplies for one page: its font resources and its content stream. */
  datatype PageSource = PageSource(fonts: map<string, FontDictionary>, stream: seq<Instruction>)

  /** `RosterProfileRelease`. */
  datatype RosterProfileRelease = RosterProfileRelease(releaseDate: Date, teams: seq<Team>)

  // ---------------------------------------------------------------------------
  // Resolving team ids

  /** The catalogue names that score at least the cutoff against `name`. */
  function Qualifying(name: string, catalogue: map<string, string>, score: (string, string) -> int): (r: set<string>)
    ensures forall c :: c in r <==> c in catalogue && score(name, c) >= ScoreCutoff
  {
    set c | c in catalogue && score(name, c) >= ScoreCutoff
  }

  /** `len(process.extract(..., limit=2, score_cutoff=86))`. */
  function MatchCount(name: string, catalogue: map<string, string>, score: (string, string) -> int): nat {
    var n := |Qualifying(name, catalogue, score)|;
    if n < MatchLimit then n else MatchLimit
  }

  /**
    `after` is `before` resolved against the catalogue: when exactly one entry qualifies, the team takes
    that entry's name and id; otherwise the team is left as it is.
  */
  ghost predicate Resolved(before: TeamRecord, after: TeamRecord, catalogue: map<string, string>,
                           score: (string, string) -> int) {
    var q := Qualifying(before.name, catalogue, score);
    if MatchCount(before.name, catalogue, score) == 1 then
      after.name in q && after == before.(id := Some(catalogue[after.name]), name := after.name)
    else
      after == before
  }

  /** The search finds a single entry exactly when a single entry qualifies; the limit of two only caps the count. */
  lemma MatchCountRule(name: string, catalogue: map<string, string>, score: (string, string) -> int)
    ensures MatchCount(name, catalogue, score) == 1 <==> |Qualifying(name, catalogue, score)| == 1
    ensures MatchCount(name, catalogue, score) == 0 <==> forall c :: c in catalogue ==> score(name, c) < ScoreCutoff
  {
    var q := Qualifying(name, catalogue, score);
    if |q| != 0 {
      var c :| c in q;
      assert c in catalogue && score(name, c) >= ScoreCutoff;
    }
  }

  /** A resolved team keeps its players and settings; a changed name is a catalogue entry, with that entry's id. */
  lemma ResolvedRule(before: TeamRecord, after: TeamRecord, catalogue: map<string, string>,
                     score: (string, string) -> int)
    requires Resolved(before, after, catalogue, score)
    ensures after.players == before.players && after.internationalSlots == before.internationalSlots
    ensures after.rosterConstructionModel == before.rosterConstructionModel
    ensures after.gamAvailable == before.gamAvailable
    ensures after != before ==> after.name in catalogue && after.id == Some(catalogue[after.name])
    ensures after != before ==> forall c :: c in catalogue && score(before.name, c) >= ScoreCutoff ==> c == after.name
  {
    MatchCountRule(before.name, catalogue, score);
    var q := Qualifying(before.name, catalogue, score);
    if after != before {
      forall c | c in catalogue && score(before.name, c) >= ScoreCutoff
        ensures c == after.name
      {
        SingletonMembers(q, c, after.name);
      }
    }
  }

  lemma SingletonMembers<T>(q: set<T>, a: T, b: T)
    requires |q| == 1 && a in q && b in q
    ensures a == b
  {
    assert |q - {a}| == |q| - 1 == 0;
  }

  /** The body of the loop in `_resolve_team_ids`, for one team. */
  method ResolveTeamId(team: Team, catalogue: map<string, string>, score: (string, string) -> int)
    modifies team
    ensures Resolved(old(team.Record()), team.Record(), catalogue, score)
  {
    var matches := Qualifying(team.name, catalogue, score);
    if MatchCount(team.name, catalogue, score) == 1 {
      MatchCountRule(team.name, catalogue, score);
      var c :| c in matches;
      team.id := Some(catalogue[c]);
      team.name := c;
    }
  }

  /** `_resolve_team_ids`, with the catalogue of team names to ids and the fuzzy scorer given. */
  method ResolveTeamIds(teams: seq<Team>, catalogue: map<string, string>, score: (string, string) -> int)
    returns (r: seq<Team>)
    requires forall i, j :: 0 <= i < j < |teams| ==> teams[i] != teams[j]
    modifies set t | t in teams
    ensures r == teams
    ensures forall i :: 0 <= i < |teams| ==> Resolved(old(teams[i].Record()), teams[i].Record(), catalogue, score)
  {
    for i := 0 to |teams|
      invariant forall k :: 0 <= k < i ==> Resolved(old(teams[k].Record()), teams[k].Record(), catalogue, score)
      invariant forall k :: i <= k < |teams| ==> teams[k].Record() == old(teams[k].Record())
    {
      label before:
      ResolveTeamId(teams[i], catalogue, score);
      forall k | 0 <= k < |teams| && k != i
        ensures teams[k].Record() == old@before(teams[k].Record())
      {
        assert teams[k] != teams[i];
      }
    }
    r := teams;
  }

  // ---------------------------------------------------------------------------
  // Reading a release

  /** What the pages read so far have produced: the teams, and the release date of the last roster page. */
  datatype Collected = Collected(teams: seq<TeamRecord>, releaseDate: Option<Date>)

  /**
    What one page contributes to `from_pdf`: nothing, unless its text carries the roster heading; then the
    team its profile describes and the profile's release date. `interpret` stands for the grammar, the
    visitor and the model validation.
  */
  function PageOutcome(page: PageSource, interpret: string -> Result<RosterProfile>): Result<Option<(TeamRecord, Date)>> {
    match ExtractedText(Initial, page.stream, page.fonts)
    case Err(e) => Err(e)
    case Ok(text) =>
      if !Contains(text, RosterHeading) then Ok(None)
      else
        match interpret(text)
        case Err(e) => Err(e)
        case Ok(profile) =>
          match TeamFrom(profile)
          case Err(e) => Err(e)
          case Ok(team) => Ok(Some((team, profile.releaseDate)))
  }

  /** The outcome of every page, in page order. */
  function Outcomes(pages: seq<PageSource>, interpret: string -> Result<RosterProfile>)
    : (r: seq<Result<Option<(TeamRecord, Date)>>>)
    ensures |r| == |pages|
  {
    seq(|pages|, k requires 0 <= k < |pages| => PageOutcome(pages[k], interpret))
  }

  /** One iteration of the page loop of `from_pdf`, given what its page yields. */
  function Gather(c: Collected, outcome: Result<Option<(TeamRecord, Date)>>): Result<Collected> {
    match outcome
    case Err(e) => Err(e)
    case Ok(None) => Ok(c)
    case Ok(Some(found)) => Ok(Collected(c.teams + [found.0], Some(found.1)))
  }

  function GatherStep(): (Collected, Result<Option<(TeamRecord, Date)>>) -> Result<Collected> {
    (c: Collected, outcome: Result<Option<(TeamRecord, Date)>>) => Gather(c, outcome)
  }

  /** The page loop over a sequence of page outcomes: it stops at the first page that fails. */
  function Gathering(outcomes: seq<Result<Option<(TeamRecord, Date)>>>): Result<Collected> {
    FoldResult(Collected([], None), outcomes, GatherStep())
  }

  /** The page loop of `from_pdf` over the pages of a document. */
  function Collecting(pages: seq<PageSource>, interpret: string -> Result<RosterProfile>): Result<Collected> {
    Gathering(Outcomes(pages, interpret))
  }

  /** The records of a list of teams. */
  function TeamRecords(teams: seq<Team>): (r: seq<TeamRecord>)
    reads set t | t in teams, set t, p | t in teams && p in t.players :: p
    ensures |r| == |teams| && forall i :: 0 <= i < |teams| ==> r[i] == teams[i].Record()
  {
    seq(|teams|, i reads set t | t in teams, set t, p | t in teams && p in t.players :: p
                   requires 0 <= i < |teams| => teams[i].Record())
  }

  /** A release has a date exactly when it has a team, and it has at most one team per page. */
  lemma {:induction false} GatheringRule(outcomes: seq<Result<Option<(TeamRecord, Date)>>>)
    ensures Gathering(outcomes).Ok? ==>
              var c := Gathering(outcomes).value;
              && (c.releaseDate.None? <==> c.teams == [])
              && |c.teams| <= |outcomes|
    decreases |outcomes|
  {
    if outcomes != [] {
      GatheringRule(outcomes[..|outcomes| - 1]);
    }
  }

  lemma CollectingRule(pages: seq<PageSource>, interpret: string -> Result<RosterProfile>)
    ensures Collecting(pages, interpret).Ok? ==>
              var c := Collecting(pages, interpret).value;
              && (c.releaseDate.None? <==> c.teams == [])
              && |c.teams| <= |pages|
  {
    GatheringRule(Outcomes(pages, interpret));
  }

  /** A page whose text lacks the roster heading contributes nothing. */
  lemma PageOutcomeRule(page: PageSource, interpret: string -> Result<RosterProfile>)
    ensures PageOutcome(page, interpret) == Ok(None) <==>
              ExtractedText(Initial, page.stream, page.fonts).Ok?
              && !Contains(ExtractedText(Initial, page.stream, page.fonts).value, RosterHeading)
    ensures PageOutcome(page, interpret).Ok? && PageOutcome(page, interpret).value.Some? ==>
              var text := ExtractedText(Initial, page.stream, page.fonts).value;
              && Contains(text, RosterHeading) && interpret(text).Ok?
              && TeamFrom(interpret(text).value) == Ok(PageOutcome(page, interpret).value.value.0)
              && PageOutcome(page, interpret).value.value.1 == interpret(text).value.releaseDate
  {
  }

  /** Pages without a roster leave the release as it was; a roster page appends its team and sets the date. */
  lemma CollectingSnoc(pages: seq<PageSource>, page: PageSource, interpret: string -> Result<RosterProfile>)
    requires Collecting(pages, interpret).Ok? && PageOutcome(page, interpret).Ok?
    ensures PageOutcome(page, interpret).value.None? ==> Collecting(pages + [page], interpret) == Collecting(pages, interpret)
    ensures PageOutcome(page, interpret).value.Some? ==>
              var found := PageOutcome(page, interpret).value.value;
              Collecting(pages + [page], interpret)
              == Ok(Collected(Collecting(pages, interpret).value.teams + [found.0], Some(found.1)))
  {
    var before, after := Outcomes(pages, interpret), Outcomes(pages + [page], interpret);
    assert forall k :: 0 <= k < |pages| ==> after[k] == before[k];
    assert after == before + [PageOutcome(page, interpret)];
    FoldResultSnoc(Collected([], None), before, PageOutcome(page, interpret), GatherStep());
  }

  /** The first page that fails decides the outcome of the whole read. */
  lemma GatheringStops(outcomes: seq<Result<Option<(TeamRecord, Date)>>>, i: nat)
    requires i < |outcomes| && Gathering(outcomes[..i]).Ok? && outcomes[i].Err?
    ensures Gathering(outcomes) == Err(outcomes[i].error)
  {
    assert outcomes[..i + 1] == outcomes[..i] + [outcomes[i]];
    FoldResultSnoc(Collected([], None), outcomes[..i], outcomes[i], GatherStep());
    FoldResultErrSticky(Collected([], None), outcomes[..i + 1], outcomes[i + 1..], GatherStep());
    assert outcomes[..i + 1] + outcomes[i + 1..] == outcomes;
  }

  /** A page that does not fail moves the read on by its outcome. */
  lemma GatheringNext(outcomes: seq<Result<Option<(TeamRecord, Date)>>>, i: nat)
    requires i < |outcomes| && Gathering(outcomes[..i]).Ok?
    ensures Gathering(outcomes[..i + 1]) == Gather(Gathering(outcomes[..i]).value, outcomes[i])
  {
    assert outcomes[..i + 1] == outcomes[..i] + [outcomes[i]];
    FoldResultSnoc(Collected([], None), outcomes[..i], outcomes[i], GatherStep());
  }

  lemma TeamRecordsSnoc(teams: seq<Team>, t: Team)
    ensures TeamRecords(teams + [t]) == TeamRecords(teams) + [t.Record()]
  {
    assert forall i :: 0 <= i < |teams| ==> (teams + [t])[i] == teams[i];
  }
  /** The body of the page loop of `from_pdf`, for one page. */
  method ReadPage(page: PageSource, interpret: string -> Result<RosterProfile>, ghost outcome: Result<Option<(TeamRecord, Date)>>)
    returns (r: Result<Option<(Team, Date)>>)
    requires forall p {:trigger PageOutcome(p, interpret)} :: p == page ==> outcome == PageOutcome(p, interpret)
    ensures match outcome
            case Err(e) => r == Err(e)
            case Ok(None) => r == Ok(None)
            case Ok(Some(found)) => r.Ok? && r.value.Some? && fresh(r.value.value.0)
                                    && r.value.value.0.Record() == found.0 && r.value.value.1 == found.1
  {
    assert outcome == PageOutcome(page, interpret);
    var reader := new Page(page.fonts);
    var text := reader.ExtractText(page.stream);
    if text.Err? {
      return Err(text.error);
    }
    if !Contains(text.value, RosterHeading) {
      return Ok(None);
    }
    var profile := interpret(text.value);
    if profile.Err? {
      return Err(profile.error);
    }
    var team := ToTeam(profile.value);
    if team.Err? {
      return Err(team.error);
    }
    return Ok(Some((team.value, profile.value.releaseDate)));
  }

  /** What the page loop has gathered so far: the teams, in page order, and the last release date. */
  ghost predicate Gathered(outcomes: seq<Result<Option<(TeamRecord, Date)>>>, teams: seq<Team>,
                           releaseDate: Option<Date>)
    reads set t | t in teams, set t, p | t in teams && p in t.players :: p
  {
    && Gathering(outcomes) == Ok(Collected(TeamRecords(teams), releaseDate))
    && forall j, k :: 0 <= j < k < |teams| ==> teams[j] != teams[k]
  }

  /** One iteration of the page loop of `from_pdf`: the page's outcome applied to what was gathered before. */
  method ReadNext(page: PageSource, interpret: string -> Result<RosterProfile>,
                  ghost outcome: Result<Option<(TeamRecord, Date)>>, teams: seq<Team>, releaseDate: Option<Date>)
    returns (r: Result<(seq<Team>, Option<Date>)>)
    requires forall p {:trigger PageOutcome(p, interpret)} :: p == page ==> outcome == PageOutcome(p, interpret)
    requires forall j, k :: 0 <= j < k < |teams| ==> teams[j] != teams[k]
    ensures match Gather(Collected(TeamRecords(teams), releaseDate), outcome)
            case Err(e) => r == Err(e)
            case Ok(c) =>
              && r.Ok? && TeamRecords(r.value.0) == c.teams && r.value.1 == c.releaseDate
              && (forall j, k :: 0 <= j < k < |r.value.0| ==> r.value.0[j] != r.value.0[k])
              && forall t :: t in r.value.0 ==> t in teams || fresh(t)
  {
    var found := ReadPage(page, interpret, outcome);
    if found.Err? {
      return Err(found.error);
    }
    if found.value.None? {
      return Ok((teams, releaseDate));
    }
    TeamRecordsSnoc(teams, found.value.value.0);
    return Ok((teams + [found.value.value.0], Some(found.value.value.1)));
  }

  /**
    The page loop of `from_pdf`: the teams of the roster pages, in page order, and the last release date.
    `outcomes` names what each page yields.
  */
  method ReadPages(pages: seq<PageSource>, interpret: string -> Result<RosterProfile>,
                   ghost outcomes: seq<Result<Option<(TeamRecord, Date)>>>)
    returns (r: Result<(seq<Team>, Option<Date>)>)
    requires |outcomes| == |pages|
    requires forall k {:trigger PageOutcome(pages[k], interpret)} ::
               0 <= k < |pages| ==> outcomes[k] == PageOutcome(pages[k], interpret)
    ensures match Gathering(outcomes)
            case Err(e) => r == Err(e)
            case Ok(c) =>
              && r.Ok? && TeamRecords(r.value.0) == c.teams && r.value.1 == c.releaseDate
              && (forall j, k :: 0 <= j < k < |r.value.0| ==> r.value.0[j] != r.value.0[k])
              && forall t :: t in r.value.0 ==> fresh(t)
  {
    var teams: seq<Team> := [];
    var releaseDate: Option<Date> := None;
    assert outcomes[..0] == [];
    for i := 0 to |pages|
      invariant Gathered(outcomes[..i], teams, releaseDate)
      invariant forall t :: t in teams ==> fresh(t)
    {
      var next := ReadNext(pages[i], interpret, outcomes[i], teams, releaseDate);
      if next.Err? {
        GatheringStops(outcomes, i);
        return Err(next.error);
      }
      GatheringNext(outcomes, i);
      teams, releaseDate := next.value.0, next.value.1;
    }
    assert outcomes[..|pages|] == outcomes;
    r := Ok((teams, releaseDate));
  }

  /** `RosterProfileRelease.from_pdf`. */
  method FromPdf(pages: seq<PageSource>, interpret: string -> Result<RosterProfile>,
                 catalogue: map<string, string>, score: (string, string) -> int)
    returns (r: Result<RosterProfileRelease>)
    ensures match Collecting(pages, interpret)
            case Err(e) => r == Err(e)
            case Ok(c) =>
              if c.releaseDate.None? then r == Err(MissingReleaseDate)
              else
                && r.Ok? && r.value.releaseDate == c.releaseDate.value && |r.value.teams| == |c.teams|
                && forall i :: 0 <= i < |c.teams| ==> Resolved(c.teams[i], r.value.teams[i].Record(), catalogue, score)
  {
    ghost var outcomes := Outcomes(pages, interpret);
    ghost var collected := Gathering(outcomes);
    var read := ReadPages(pages, interpret, outcomes);
    if read.Err? {
      return Err(read.error);
    }
    var teams, releaseDate := read.value.0, read.value.1;
    ghost var records := TeamRecords(teams);
    assert collected == Ok(Collected(records, releaseDate));
    teams := ResolveTeamIds(teams, catalogue, score);
    if releaseDate.None? {
      return Err(MissingReleaseDate);
    }
    r := Ok(RosterProfileRelease(releaseDate.value, teams));
    assert forall i :: 0 <= i < |records| ==> Resolved(records[i], teams[i].Record(), catalogue, score);
  }
}
