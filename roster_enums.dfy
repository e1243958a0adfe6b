/**
  The league's fixed vocabularies (roster slot, roster designation, current status,
  roster construction model) and the case- and dash-insensitive lookup that every
  enum-typed field of a roster record goes through.
*/
module RosterEnums {
  import opened Wrappers
  import opened Text

  const EnDash: char := '\U{2013}'

  /** One character of `value.lower().replace("–", "-")`. */
  function NormalizeChar(c: char): char {
    var l := LowerChar(c);
    if l == EnDash then '-' else l
  }

  /** `value.lower().replace("–", "-")`: both steps map one character to one character. */
  function Normalize(s: string): (r: string)
    ensures |r| == |s|
    ensures forall i :: 0 <= i < |s| ==> r[i] == NormalizeChar(s[i])
  {
    seq(|s|, i requires 0 <= i < |s| => NormalizeChar(s[i]))
  }

  predicate SameNormalized(a: string, b: string) {
    Normalize(a) == Normalize(b)
  }

  /**
    `StrEnumCaseInsensitive._missing_`: the first member, in declaration order, whose
    normalized value equals the normalized input; None when there is none.
  */
  function Missing<E>(members: seq<E>, value: E -> string, s: string): (r: Option<E>)
    ensures r.Some? ==> r.value in members && SameNormalized(value(r.value), s)
    ensures r.None? <==> forall m :: m in members ==> !SameNormalized(value(m), s)
  {
    if members == [] then None
    else if SameNormalized(value(members[0]), s) then Some(members[0])
    else
      var r := Missing(members[1..], value, s);
      assert forall m :: m in members ==> m == members[0] || m in members[1..];
      r
  }

  /** The exact-value table an enum consults before `_missing_`. */
  function ExactMember<E>(members: seq<E>, value: E -> string, s: string): (r: Option<E>)
    ensures r.Some? ==> r.value in members && value(r.value) == s
  {
    if members == [] then None
    else if value(members[0]) == s then Some(members[0])
    else ExactMember(members[1..], value, s)
  }

  /** `E(s)`: an exact value match first, then `_missing_`; None stands for the ValueError. */
  function Construct<E>(members: seq<E>, value: E -> string, s: string): Option<E> {
    match ExactMember(members, value, s)
    case Some(m) => Some(m)
    case None => Missing(members, value, s)
  }

  /** No two members of the enum have the same normalized value. */
  ghost predicate NormalizedDistinct<E>(members: seq<E>, value: E -> string) {
    forall i, j :: 0 <= i < j < |members| ==> !SameNormalized(value(members[i]), value(members[j]))
  }

  // ---------------------------------------------------------------------------
  // The four vocabularies, members in declaration order

  datatype RosterSlot = Senior | Supplemental | Supplemental31 | OffRoster

  function SlotValue(m: RosterSlot): string {
    match m
    case Senior => "Senior Roster"
    case Supplemental => "Supplemental Roster"
    case Supplemental31 => "Supplemental Spot 31"
    case OffRoster => "Off-Roster (Unavailable)"
  }

  const RosterSlots: seq<RosterSlot> := [Senior, Supplemental, Supplemental31, OffRoster]

  datatype RosterDesignation =
    | YoungDp | Tam | Dp | U22 | Homegrown | GenerationAdidas | ProfessionalDevelopment

  function DesignationValue(m: RosterDesignation): string {
    match m
    case YoungDp => "Young Designated Player"
    case Tam => "TAM Player"
    case Dp => "Designated Player"
    case U22 => "U22 Initiative"
    case Homegrown => "Homegrown Player"
    case GenerationAdidas => "Generation adidas"
    case ProfessionalDevelopment => "Player Professional Development Role"
  }

  const RosterDesignations: seq<RosterDesignation> :=
    [YoungDp, Tam, Dp, U22, Homegrown, GenerationAdidas, ProfessionalDevelopment]

  datatype CurrentStatus = OnLoan | Sei | P1Itc | UnavailableOther | OffBudget | LoanPlayer | Injured

  function StatusValue(m: CurrentStatus): string {
    match m
    case OnLoan => "Unavailable - On Loan"
    case Sei => "Unavailable - SEI"
    case P1Itc => "Unavailable - P1/ITC"
    case UnavailableOther => "Unavailable - Other"
    case OffBudget => "Off-Budget"
    case LoanPlayer => "Loan Player"
    case Injured => "Unavailable - Injured List"
  }

  const CurrentStatuses: seq<CurrentStatus> :=
    [OnLoan, Sei, P1Itc, UnavailableOther, OffBudget, LoanPlayer, Injured]

  datatype RosterConstructionModel = DesignatedPlayerModel | U22InitiativeModel

  function ModelValue(m: RosterConstructionModel): string {
    match m
    case DesignatedPlayerModel => "Designated Player Model"
    case U22InitiativeModel => "U22 Initiative Player Model"
  }

  const RosterConstructionModels: seq<RosterConstructionModel> := [DesignatedPlayerModel, U22InitiativeModel]

  function LookupRosterSlot(s: string): Option<RosterSlot> {
    Construct(RosterSlots, SlotValue, s)
  }

  function LookupRosterDesignation(s: string): Option<RosterDesignation> {
    Construct(RosterDesignations, DesignationValue, s)
  }

  function LookupCurrentStatus(s: string): Option<CurrentStatus> {
    Construct(CurrentStatuses, StatusValue, s)
  }

  function LookupRosterConstructionModel(s: string): Option<RosterConstructionModel> {
    Construct(RosterConstructionModels, ModelValue, s)
  }

  // ---------------------------------------------------------------------------
  // Properties of the lookup

  /** `_missing_` returns the first member, in declaration order, that matches. */
  lemma {:induction false} MissingReturnsFirstMatch<E>(members: seq<E>, value: E -> string, s: string, i: nat)
    requires i < |members| && SameNormalized(value(members[i]), s)
    requires forall j :: 0 <= j < i ==> !SameNormalized(value(members[j]), s)
    ensures Missing(members, value, s) == Some(members[i])
  {
    if i > 0 {
      assert forall j :: 0 <= j < i - 1 ==> members[1..][j] == members[j + 1];
      MissingReturnsFirstMatch(members[1..], value, s, i - 1);
    }
  }

  /** The exact match, when there is one, sits at an index whose value is the input. */
  lemma {:induction false} ExactMemberAt<E>(members: seq<E>, value: E -> string, s: string)
    requires ExactMember(members, value, s).Some?
    ensures exists i :: 0 <= i < |members| && members[i] == ExactMember(members, value, s).value
                        && value(members[i]) == s
  {
    if value(members[0]) != s {
      ExactMemberAt(members[1..], value, s);
      var i :| 0 <= i < |members[1..]| && members[1..][i] == ExactMember(members, value, s).value
                && value(members[1..][i]) == s;
      assert members[i + 1] == members[1..][i];
    } else {
      assert members[0] == ExactMember(members, value, s).value;
    }
  }

  /**
    When normalized values are pairwise distinct, trying the exact value first changes
    nothing: `E(s)` is `_missing_(s)`, so a successful lookup is unambiguous.
  */
  lemma ConstructIsMissing<E>(members: seq<E>, value: E -> string, s: string)
    requires NormalizedDistinct(members, value)
    ensures Construct(members, value, s) == Missing(members, value, s)
  {
    if ExactMember(members, value, s).Some? {
      ExactMemberAt(members, value, s);
      var i :| 0 <= i < |members| && members[i] == ExactMember(members, value, s).value
               && value(members[i]) == s;
      forall j | 0 <= j < i
        ensures !SameNormalized(value(members[j]), s)
      {
        assert !SameNormalized(value(members[j]), value(members[i]));
      }
      MissingReturnsFirstMatch(members, value, s, i);
    }
  }

  /** A lookup that succeeds names the only member whose normalized value matches. */
  lemma LookupUnambiguous<E>(members: seq<E>, value: E -> string, s: string, k: nat)
    requires NormalizedDistinct(members, value)
    requires Missing(members, value, s).Some?
    requires k < |members| && members[k] != Missing(members, value, s).value
    ensures !SameNormalized(value(members[k]), s)
  {
    var m := Missing(members, value, s).value;
    var i :| 0 <= i < |members| && members[i] == m;
    if SameNormalized(value(members[k]), s) {
      assert SameNormalized(value(members[k]), value(members[i]));
      assert false;
    }
  }

  lemma RosterSlotsDistinct()
    ensures NormalizedDistinct(RosterSlots, SlotValue)
    ensures forall m: RosterSlot :: m in RosterSlots
  {
    forall m: RosterSlot ensures m in RosterSlots {
      match m
      case Senior => assert RosterSlots[0] == m;
      case Supplemental => assert RosterSlots[1] == m;
      case Supplemental31 => assert RosterSlots[2] == m;
      case OffRoster => assert RosterSlots[3] == m;
    }
  }

  lemma RosterDesignationsDistinct()
    ensures NormalizedDistinct(RosterDesignations, DesignationValue)
    ensures forall m: RosterDesignation :: m in RosterDesignations
  {
    forall m: RosterDesignation ensures m in RosterDesignations {
      match m
      case YoungDp => assert RosterDesignations[0] == m;
      case Tam => assert RosterDesignations[1] == m;
      case Dp => assert RosterDesignations[2] == m;
      case U22 => assert RosterDesignations[3] == m;
      case Homegrown => assert RosterDesignations[4] == m;
      case GenerationAdidas => assert RosterDesignations[5] == m;
      case ProfessionalDevelopment => assert RosterDesignations[6] == m;
    }
    forall i, j | 0 <= i < j < |RosterDesignations|
      ensures !SameNormalized(DesignationValue(RosterDesignations[i]), DesignationValue(RosterDesignations[j]))
    {
      var a, b := DesignationValue(RosterDesignations[i]), DesignationValue(RosterDesignations[j]);
      if i == 2 && j == 5 {
        assert Normalize(a)[0] != Normalize(b)[0];
      } else {
        assert |Normalize(a)| != |Normalize(b)|;
      }
    }
  }

  /** Values of pairwise different lengths stay apart after normalising, which keeps lengths. */
  lemma LengthsDistinct<E>(members: seq<E>, value: E -> string)
    requires forall i, j :: 0 <= i < j < |members| ==> |value(members[i])| != |value(members[j])|
    ensures NormalizedDistinct(members, value)
  {
    forall i, j | 0 <= i < j < |members|
      ensures !SameNormalized(value(members[i]), value(members[j]))
    {
      assert |Normalize(value(members[i]))| != |Normalize(value(members[j]))|;
    }
  }

  lemma CurrentStatusesDistinct()
    ensures NormalizedDistinct(CurrentStatuses, StatusValue)
    ensures forall m: CurrentStatus :: m in CurrentStatuses
  {
    LengthsDistinct(CurrentStatuses, StatusValue);
    forall m: CurrentStatus ensures m in CurrentStatuses {
      match m
      case OnLoan => assert CurrentStatuses[0] == m;
      case Sei => assert CurrentStatuses[1] == m;
      case P1Itc => assert CurrentStatuses[2] == m;
      case UnavailableOther => assert CurrentStatuses[3] == m;
      case OffBudget => assert CurrentStatuses[4] == m;
      case LoanPlayer => assert CurrentStatuses[5] == m;
      case Injured => assert CurrentStatuses[6] == m;
    }
  }

  lemma RosterConstructionModelsDistinct()
    ensures NormalizedDistinct(RosterConstructionModels, ModelValue)
    ensures forall m: RosterConstructionModel :: m in RosterConstructionModels
  {
    forall m: RosterConstructionModel ensures m in RosterConstructionModels {
      match m
      case DesignatedPlayerModel => assert RosterConstructionModels[0] == m;
      case U22InitiativeModel => assert RosterConstructionModels[1] == m;
    }
  }

  /** Case and dash are ignored: "unavailable – on loan" names ON_LOAN. */
  lemma OnLoanLookupExample()
    ensures LookupCurrentStatus("unavailable \U{2013} on loan") == Some(OnLoan)
  {
    var s := "unavailable \U{2013} on loan";
    assert SameNormalized(StatusValue(OnLoan), s);
    CurrentStatusesDistinct();
    ConstructIsMissing(CurrentStatuses, StatusValue, s);
    MissingReturnsFirstMatch(CurrentStatuses, StatusValue, s, 0);
  }
}
