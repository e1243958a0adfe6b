/**
  What roster-profile assembly promises: the enum-field rule, where the international
  slot count comes from, what each enricher does to a player, and how players and the
  team are laid out.
*/
module RosterProperties {
  import opened Wrappers
  import opened Text
  import opened RosterEnums
  import opened RosterModels

  // ---------------------------------------------------------------------------
  // Enum-typed fields

  /**
    The validator rule: no value or an empty one gives `Absent`; otherwise the field is
    the member whose normalized value matches, and text that matches no member is kept
    verbatim.
  */
  lemma ValidateEnumRule<E>(input: Option<string>, members: seq<E>, value: E -> string)
    requires NormalizedDistinct(members, value)
    ensures ValidateEnum(input, members, value).Absent? <==> input.None? || input.value == ""
    ensures forall m :: m in members ==>
              (ValidateEnum(input, members, value) == Member(m)
               <==> input.Some? && input.value != "" && SameNormalized(value(m), input.value))
    ensures ValidateEnum(input, members, value).Member? ==> ValidateEnum(input, members, value).member in members
    ensures ValidateEnum(input, members, value).Raw?
            <==> input.Some? && input.value != "" && forall m :: m in members ==> !SameNormalized(value(m), input.value)
    ensures ValidateEnum(input, members, value).Raw? ==> ValidateEnum(input, members, value).text == input.value
  {
    if input.Some? && input.value != "" {
      var s := input.value;
      ConstructIsMissing(members, value, s);
      forall m | m in members && SameNormalized(value(m), s)
        ensures ValidateEnum(input, members, value) == Member(m)
      {
        var k :| 0 <= k < |members| && members[k] == m;
        if Missing(members, value, s).value != m {
          LookupUnambiguous(members, value, s, k);
        }
      }
    }
  }

  lemma ValidateRosterDesignationRule(input: Option<string>)
    ensures ValidateRosterDesignation(input).Absent? <==> input.None? || input.value == ""
    ensures forall m :: ValidateRosterDesignation(input) == Member(m)
                        <==> input.Some? && input.value != "" && SameNormalized(DesignationValue(m), input.value)
    ensures ValidateRosterDesignation(input).Raw?
            <==> input.Some? && input.value != "" && forall m :: !SameNormalized(DesignationValue(m), input.value)
    ensures ValidateRosterDesignation(input).Raw? ==> ValidateRosterDesignation(input).text == input.value
  {
    RosterDesignationsDistinct();
    ValidateEnumRule(input, RosterDesignations, DesignationValue);
  }

  lemma ValidateCurrentStatusRule(input: Option<string>)
    ensures ValidateCurrentStatus(input).Absent? <==> input.None? || input.value == ""
    ensures forall m :: ValidateCurrentStatus(input) == Member(m)
                        <==> input.Some? && input.value != "" && SameNormalized(StatusValue(m), input.value)
    ensures ValidateCurrentStatus(input).Raw?
            <==> input.Some? && input.value != "" && forall m :: !SameNormalized(StatusValue(m), input.value)
    ensures ValidateCurrentStatus(input).Raw? ==> ValidateCurrentStatus(input).text == input.value
  {
    CurrentStatusesDistinct();
    ValidateEnumRule(input, CurrentStatuses, StatusValue);
  }

  lemma ValidateRosterConstructionModelRule(input: Option<string>)
    ensures ValidateRosterConstructionModel(input).Absent? <==> input.None? || input.value == ""
    ensures forall m :: ValidateRosterConstructionModel(input) == Member(m)
                        <==> input.Some? && input.value != "" && SameNormalized(ModelValue(m), input.value)
    ensures ValidateRosterConstructionModel(input).Raw?
            <==> input.Some? && input.value != "" && forall m :: !SameNormalized(ModelValue(m), input.value)
    ensures ValidateRosterConstructionModel(input).Raw? ==> ValidateRosterConstructionModel(input).text == input.value
  {
    RosterConstructionModelsDistinct();
    ValidateEnumRule(input, RosterConstructionModels, ModelValue);
  }

  // ---------------------------------------------------------------------------
  // The international slot count

  predicate CountsSlots(t: SmallTable) {
    TitleStarts(t, "international") && FirstDigitRun(t.title).Some?
  }

  /**
    The count is the first digit run of the first "international" table whose title has
    one; later tables are not consulted.
  */
  lemma {:induction false} InternationalSlotsFirst(small: seq<SmallTable>, k: nat)
    requires k < |small| && CountsSlots(small[k])
    requires forall j :: 0 <= j < k ==> !CountsSlots(small[j])
    ensures InternationalSlots(small) == FirstDigitRun(small[k].title)
    decreases k
  {
    if k > 0 {
      assert !CountsSlots(small[0]);
      forall j | 0 <= j < k - 1
        ensures !CountsSlots(small[1..][j])
      {
        assert small[1..][j] == small[j + 1];
      }
      InternationalSlotsFirst(small[1..], k - 1);
    }
  }

  // ---------------------------------------------------------------------------
  // International slots and the Canadian exemption

  /** Some row of an "international" table names the player. */
  ghost predicate ListedInternational(small: seq<SmallTable>, name: string) {
    exists k, i :: 0 <= k < |small| && TitleStarts(small[k], "international")
                   && 0 <= i < |small[k].rows| && NameMatches(small[k].rows[i], name)
  }

  /** One "international" table touches only the two international fields. */
  lemma InternationalTableStepSlot(p: PlayerRecord, t: SmallTable)
    ensures match InternationalTableStep(p, t)
            case Ok(q) =>
              q == p.(internationalSlot := q.internationalSlot, canadianExemption := q.canadianExemption)
              && (q.internationalSlot
                  <==> p.internationalSlot
                       || (TitleStarts(t, "international")
                           && exists i :: 0 <= i < |t.rows| && NameMatches(t.rows[i], p.name)))
            case Err(e) => e == NoneNotSearchable
    ensures InternationalTableStep(p, t).Err?
            <==> TitleStarts(t, "international") && FirstMatch(t.rows, p.name).Some?
                 && t.rows[FirstMatch(t.rows, p.name).value].playerName.None?
  {
    if TitleStarts(t, "international") && FirstMatch(t.rows, p.name).None? {
      assert forall i :: 0 <= i < |t.rows| ==> !NameMatches(t.rows[i], p.name);
    }
  }

  /**
    The Canadian exemption after one "international" table, where the player's row is
    the first row whose name matches: True when that row carries `+`; False when some
    other row carries `+` but the player's row does not (or there is none); unchanged
    when no row carries `+`.
  */
  lemma CanadianExemptionRule(p: PlayerRecord, t: SmallTable, q: PlayerRecord)
    requires TitleStarts(t, "international") && InternationalTableStep(p, t) == Ok(q)
    ensures FirstMatch(t.rows, p.name).Some? && Marked(t.rows[FirstMatch(t.rows, p.name).value], '+')
            ==> q.canadianExemption == Some(true)
    ensures (exists i :: 0 <= i < |t.rows| && Marked(t.rows[i], '+'))
            && (FirstMatch(t.rows, p.name).None? || !Marked(t.rows[FirstMatch(t.rows, p.name).value], '+'))
            ==> q.canadianExemption == Some(false)
    ensures (forall i :: 0 <= i < |t.rows| ==> !Marked(t.rows[i], '+')) ==> q.canadianExemption == p.canadianExemption
  {
    if forall i :: 0 <= i < |t.rows| ==> !Marked(t.rows[i], '+') {
      assert !exists row :: row in t.rows && Marked(row, '+');
    }
  }

  /**
    After all small tables, the player holds an international slot exactly when it did
    before or some row of an "international" table names it; nothing else but the
    Canadian exemption changes.
  */
  lemma {:induction false} InternationalSlotRule(p: PlayerRecord, small: seq<SmallTable>, q: PlayerRecord)
    requires InternationalEnriched(p, small) == Ok(q)
    ensures q == p.(internationalSlot := q.internationalSlot, canadianExemption := q.canadianExemption)
    ensures q.internationalSlot <==> p.internationalSlot || ListedInternational(small, p.name)
    decreases |small|
  {
    if small == [] {
    } else {
      var n := |small| - 1;
      var a := InternationalEnriched(p, small[..n]).value;
      InternationalSlotRule(p, small[..n], a);
      InternationalTableStepSlot(a, small[n]);
      assert forall k :: 0 <= k < n ==> small[..n][k] == small[k];
    }
  }

  /** An "international" table in which some row carries `+`: such a table decides the exemption. */
  predicate DecidesExemption(t: SmallTable) {
    TitleStarts(t, "international") && exists i :: 0 <= i < |t.rows| && Marked(t.rows[i], '+')
  }

  /** The first row of `t` whose name matches carries `+`. */
  predicate MatchMarked(t: SmallTable, name: string) {
    FirstMatch(t.rows, name).Some? && Marked(t.rows[FirstMatch(t.rows, name).value], '+')
  }

  /** The index of the last table that decides the exemption, if any. */
  function LastDecidingTable(small: seq<SmallTable>): (r: Option<nat>)
    ensures r.Some? ==> r.value < |small| && DecidesExemption(small[r.value])
                        && forall k :: r.value < k < |small| ==> !DecidesExemption(small[k])
    ensures r.None? ==> forall k :: 0 <= k < |small| ==> !DecidesExemption(small[k])
  {
    if small == [] then None
    else if DecidesExemption(small[|small| - 1]) then Some(|small| - 1)
    else LastDecidingTable(small[..|small| - 1])
  }

  /**
    After all small tables, the last "international" table holding a `+` row decides the
    Canadian exemption: True when the player's (first matching) row there carries `+`,
    False otherwise. With no such table the exemption is left as it was.
  */
  lemma {:induction false} CanadianExemptionAcross(p: PlayerRecord, small: seq<SmallTable>, q: PlayerRecord)
    requires InternationalEnriched(p, small) == Ok(q)
    ensures q.canadianExemption == match LastDecidingTable(small)
                                   case None => p.canadianExemption
                                   case Some(k) => Some(MatchMarked(small[k], p.name))
    decreases |small|
  {
    if small != [] {
      var n := |small| - 1;
      var t := small[n];
      var a := InternationalEnriched(p, small[..n]).value;
      CanadianExemptionAcross(p, small[..n], a);
      InternationalSlotRule(p, small[..n], a);
      if TitleStarts(t, "international") {
        CanadianExemptionRule(a, t, q);
      }
      match LastDecidingTable(small[..n])
      case None =>
      case Some(k) => assert small[..n][k] == small[k];
    }
  }

  // ---------------------------------------------------------------------------
  // Designated Players

  /** Some row of a "designated" table names the player and carries `^`. */
  ghost predicate MarkedNotConvertible(small: seq<SmallTable>, name: string) {
    exists k, i :: 0 <= k < |small| && TitleStarts(small[k], "designated")
                   && 0 <= i < |small[k].rows| && NameMatches(small[k].rows[i], name) && Marked(small[k].rows[i], '^')
  }

  ghost predicate RowMarkedNotConvertible(rows: seq<SmallTableRow>, name: string) {
    exists i :: 0 <= i < |rows| && NameMatches(rows[i], name) && Marked(rows[i], '^')
  }

  lemma {:induction false} DesignatedRowsRule(p: PlayerRecord, rows: seq<SmallTableRow>, q: PlayerRecord)
    requires FoldResult(p, rows, DesignatedRowStep) == Ok(q)
    ensures q == p.(convertibleWithTam := if RowMarkedNotConvertible(rows, p.name) then Some(false)
                                          else p.convertibleWithTam)
    decreases |rows|
  {
    if rows != [] {
      var n := |rows| - 1;
      var a := FoldResult(p, rows[..n], DesignatedRowStep).value;
      DesignatedRowsRule(p, rows[..n], a);
      assert forall i :: 0 <= i < n ==> rows[..n][i] == rows[i];
    }
  }

  lemma {:induction false} DesignatedTablesRule(p: PlayerRecord, small: seq<SmallTable>, q: PlayerRecord)
    requires FoldResult(p, small, DesignatedTableStep) == Ok(q)
    ensures q == p.(convertibleWithTam := if MarkedNotConvertible(small, p.name) then Some(false)
                                          else p.convertibleWithTam)
    decreases |small|
  {
    if small != [] {
      var n := |small| - 1;
      var t := small[n];
      var a := FoldResult(p, small[..n], DesignatedTableStep).value;
      DesignatedTablesRule(p, small[..n], a);
      if TitleStarts(t, "designated") {
        DesignatedRowsRule(a, t.rows, q);
      }
      assert forall k :: 0 <= k < n ==> small[..n][k] == small[k];
    }
  }

  /**
    Only a Designated Player is touched: it is convertible with TAM unless a row of a
    "designated" table names it with `^`. Anyone else keeps the prior value.
  */
  lemma ConvertibleWithTamRule(p: PlayerRecord, small: seq<SmallTable>, q: PlayerRecord)
    requires DesignatedEnriched(p, small) == Ok(q)
    ensures FieldIs(p.rosterDesignation, Dp, DesignationValue)
            ==> q == p.(convertibleWithTam := Some(!MarkedNotConvertible(small, p.name)))
    ensures !FieldIs(p.rosterDesignation, Dp, DesignationValue) ==> q == p
  {
    if FieldIs(p.rosterDesignation, Dp, DesignationValue) {
      DesignatedTablesRule(p.(convertibleWithTam := Some(true)), small, q);
    }
  }

  // ---------------------------------------------------------------------------
  // Unavailable players

  /** Some row of an "unavailable" table names the player. */
  ghost predicate ListedUnavailable(small: seq<SmallTable>, name: string) {
    exists k, i :: 0 <= k < |small| && TitleStarts(small[k], "unavailable")
                   && 0 <= i < |small[k].rows| && NameMatches(small[k].rows[i], name)
  }

  ghost predicate RowListed(rows: seq<SmallTableRow>, name: string) {
    exists i :: 0 <= i < |rows| && NameMatches(rows[i], name)
  }

  lemma {:induction false} UnavailableRowsRule(p: PlayerRecord, rows: seq<SmallTableRow>)
    ensures FoldResult(p, rows, UnavailableRowStep) == Ok(p.(unavailable := p.unavailable || RowListed(rows, p.name)))
    decreases |rows|
  {
    if rows != [] {
      var n := |rows| - 1;
      UnavailableRowsRule(p, rows[..n]);
      assert forall i :: 0 <= i < n ==> rows[..n][i] == rows[i];
    }
  }

  /**
    The unavailable enricher never fails and never clears the flag: afterwards the player
    is unavailable exactly when it was before or an "unavailable" table lists it.
  */
  lemma {:induction false} UnavailableRule(p: PlayerRecord, small: seq<SmallTable>)
    ensures UnavailableEnriched(p, small) == Ok(p.(unavailable := p.unavailable || ListedUnavailable(small, p.name)))
    decreases |small|
  {
    if small != [] {
      var n := |small| - 1;
      var t := small[n];
      UnavailableRule(p, small[..n]);
      var a := p.(unavailable := p.unavailable || ListedUnavailable(small[..n], p.name));
      if TitleStarts(t, "unavailable") {
        UnavailableRowsRule(a, t.rows);
      }
      assert forall k :: 0 <= k < n ==> small[..n][k] == small[k];
    }
  }

  // ---------------------------------------------------------------------------
  // One player, enriched

  /**
    `_enrich_player`: the fields read from the large table are left alone; the
    international slot, TAM convertibility and unavailability follow the three rules
    above, each over the whole list of small tables; and only a loan player keeps a
    permanent-transfer option.
  */
  lemma EnrichedRule(p: PlayerRecord, small: seq<SmallTable>, q: PlayerRecord)
    requires Enriched(p, small) == Ok(q)
    ensures q.id == p.id && q.name == p.name && q.rosterSlot == p.rosterSlot
    ensures q.rosterDesignation == p.rosterDesignation && q.currentStatus == p.currentStatus
    ensures q.contractThrough == p.contractThrough && q.optionYears == p.optionYears
    ensures q.internationalSlot <==> p.internationalSlot || ListedInternational(small, p.name)
    ensures q.canadianExemption == match LastDecidingTable(small)
                                   case None => p.canadianExemption
                                   case Some(k) => Some(MatchMarked(small[k], p.name))
    ensures q.convertibleWithTam == if FieldIs(p.rosterDesignation, Dp, DesignationValue)
                                    then Some(!MarkedNotConvertible(small, p.name)) else p.convertibleWithTam
    ensures q.unavailable == (p.unavailable || ListedUnavailable(small, p.name))
    ensures q.permanentTransferOption == if FieldIs(p.currentStatus, LoanPlayer, StatusValue)
                                         then p.permanentTransferOption else None
  {
    var a := InternationalEnriched(p, small).value;
    InternationalSlotRule(p, small, a);
    CanadianExemptionAcross(p, small, a);
    var b := DesignatedEnriched(a, small).value;
    ConvertibleWithTamRule(a, small, b);
    UnavailableRule(b, small);
  }

  /**
    A player built from one large-table row: the table title names its roster slot, its
    name is the stripped player name, the enum fields follow the validator rule, and the
    permanent-transfer option is "option years start with PT" for a loan player and
    None for anyone else. A title that names no roster slot is an error.
  */
  lemma PlayerFromRule(small: seq<SmallTable>, e: Entry)
    ensures LookupRosterSlot(e.title).None? ==> PlayerFrom(small, e) == Err(NotAMember)
    ensures PlayerFrom(small, e).Ok? ==>
              var q := PlayerFrom(small, e).value;
              LookupRosterSlot(e.title) == Some(q.rosterSlot)
              && q.id == None && q.name == Strip(e.row.playerName)
              && q.rosterDesignation == ValidateRosterDesignation(e.row.rosterDesignation)
              && q.currentStatus == ValidateCurrentStatus(e.row.currentStatus)
              && q.contractThrough == StripOption(e.row.contractThrough)
              && q.optionYears == StripOption(e.row.optionYears)
              && q.permanentTransferOption
                 == if FieldIs(q.currentStatus, LoanPlayer, StatusValue)
                    then Some(StartsWith(PyStr(e.row.optionYears), "PT")) else None
  {
    if PlayerFrom(small, e).Ok? {
      EnrichedRule(NewPlayer(e.row, e.title).value, small, PlayerFrom(small, e).value);
    }
  }

  /** A roster slot found by lookup matches the table title up to case and dashes. */
  lemma RosterSlotFromTitle(title: string, slot: RosterSlot)
    requires LookupRosterSlot(title) == Some(slot)
    ensures SameNormalized(SlotValue(slot), title)
    ensures forall m :: m != slot ==> !SameNormalized(SlotValue(m), title)
  {
    RosterSlotsDistinct();
    ConstructIsMissing(RosterSlots, SlotValue, title);
    forall m | m != slot
      ensures !SameNormalized(SlotValue(m), title)
    {
      assert m in RosterSlots;
      var k :| 0 <= k < |RosterSlots| && RosterSlots[k] == m;
      LookupUnambiguous(RosterSlots, SlotValue, title, k);
    }
  }

  // ---------------------------------------------------------------------------
  // The player list and the team

  /** Where row `i` of table `k` sits in the flattened list of entries. */
  lemma {:induction false} EntriesLayout(tables: seq<LargeTable>, k: nat, i: nat)
    requires k < |tables| && i < |tables[k].rows|
    ensures |Entries(tables[..k])| + |tables[k].rows| <= |Entries(tables)|
    ensures Entries(tables)[|Entries(tables[..k])| + i] == Entry(tables[k].title, tables[k].rows[i])
  {
    assert tables == tables[..k] + [tables[k]] + tables[k + 1..];
    EntriesAppend(tables[..k] + [tables[k]], tables[k + 1..]);
    EntriesAppend(tables[..k], [tables[k]]);
    assert Entries([tables[k]]) == RowEntries(tables[k].title, tables[k].rows) by {
      assert [tables[k]][..0] == [];
    }
    RowEntriesAt(tables[k].title, tables[k].rows, i);
  }

  lemma {:induction false} RowEntriesAt(title: string, rows: seq<LargeTableRow>, i: nat)
    requires i < |rows|
    ensures RowEntries(title, rows)[i] == Entry(title, rows[i])
    decreases |rows|
  {
    if i < |rows| - 1 {
      RowEntriesAt(title, rows[..|rows| - 1], i);
    }
  }

  /** Later tables come later: the rows of table `k` follow those of every earlier table. */
  lemma EntriesOffsets(tables: seq<LargeTable>, k: nat)
    requires k < |tables|
    ensures |Entries(tables[..k + 1])| == |Entries(tables[..k])| + |tables[k].rows|
  {
    assert tables[..k + 1][..k] == tables[..k];
  }

  /**
    `_get_players`: when it succeeds, there is one player per large-table row, and the
    player at row `i` of table `k` is the one built from that row under that table's title.
  */
  lemma PlayersFromLayout(small: seq<SmallTable>, tables: seq<LargeTable>, rs: seq<PlayerRecord>, k: nat, i: nat)
    requires PlayersFrom(small, Entries(tables)) == Ok(rs)
    requires k < |tables| && i < |tables[k].rows|
    ensures |rs| == |Entries(tables)| && |Entries(tables[..k])| + i < |rs|
    ensures PlayerFrom(small, Entry(tables[k].title, tables[k].rows[i])) == Ok(rs[|Entries(tables[..k])| + i])
  {
    CollectAtEntry(tables, PlayerBuilder(small), rs, k, i);
  }

  /** What a successful `Collect` over the entries holds for row `i` of table `k`. */
  lemma CollectAtEntry<U>(tables: seq<LargeTable>, f: Entry -> Result<U>, us: seq<U>, k: nat, i: nat)
    requires Collect(Entries(tables), f) == Ok(us)
    requires k < |tables| && i < |tables[k].rows|
    ensures |us| == |Entries(tables)| && |Entries(tables[..k])| + i < |us|
    ensures f(Entry(tables[k].title, tables[k].rows[i])) == Ok(us[|Entries(tables[..k])| + i])
  {
    EntriesLayout(tables, k, i);
    CollectAt(Entries(tables), f, us, |Entries(tables[..k])| + i);
  }

  /**
    `_get_players` fails exactly when some row's player cannot be built, and then with
    the error of the first such row.
  */
  lemma PlayersFromFails(small: seq<SmallTable>, entries: seq<Entry>, k: nat, e: Error)
    requires k < |entries| && PlayerFrom(small, entries[k]) == Err(e)
    requires forall j :: 0 <= j < k ==> PlayerFrom(small, entries[j]).Ok?
    ensures PlayersFrom(small, entries) == Err(e)
  {
    assert FirstErrAt(entries, PlayerBuilder(small), k, e) by {
      assert PlayerBuilder(small)(entries[k]) == Err(e);
      forall j | 0 <= j < k
        ensures PlayerBuilder(small)(entries[j]).Ok?
      {
        assert PlayerFrom(small, entries[j]).Ok?;
      }
    }
    CollectFirstErrAt(entries, PlayerBuilder(small), k, e);
  }

  /**
    `to_team`: the team's name is the stripped team name, and the roster construction
    model and GAM are copied through; it fails when a player cannot be built, and
    otherwise exactly when no "international" table title has a digit run.
  */
  lemma TeamFromRule(profile: RosterProfile)
    ensures PlayersFrom(profile.smallTables, Entries(profile.largeTables)).Err? ==> TeamFrom(profile).Err?
    ensures PlayersFrom(profile.smallTables, Entries(profile.largeTables)).Ok? ==>
              (TeamFrom(profile) == Err(MissingInternationalSlots)
               <==> forall k :: 0 <= k < |profile.smallTables| ==> !CountsSlots(profile.smallTables[k]))
    ensures TeamFrom(profile).Ok? ==>
              var t := TeamFrom(profile).value;
              t.id == None && t.name == Strip(profile.teamName)
              && t.rosterConstructionModel == ValidateRosterConstructionModel(profile.rosterConstructionModel)
              && t.gamAvailable == profile.gamAvailable
              && Ok(t.players) == PlayersFrom(profile.smallTables, Entries(profile.largeTables))
              && InternationalSlots(profile.smallTables).Some?
              && t.internationalSlots == InternationalSlots(profile.smallTables).value
  {
  }
}
