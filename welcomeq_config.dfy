/**
 * The welcome page: the list model of installation requirements shown to the
 * user, and the page controller's navigation and language properties.
 */
module WelcomeConfig {

  /** One requirement as the requirements checker reports it. */
  datatype Requirement = Requirement(
    name: string,
    details: string,
    negatedText: string,
    satisfied: bool,
    mandatory: bool)

  /** The item roles the list model serves; any other role number is `OtherRole`. */
  datatype Role = NameRole | DetailsRole | NegatedTextRole | SatisfiedRole | MandatoryRole | OtherRole(id: int)

  /** A cell value: nothing, a text, or a flag. */
  datatype Value = Invalid | Text(text: string) | Flag(flag: bool)

  /** What the satisfied flag would say if the loop's clearing assignment were
      in effect: every mandatory requirement is satisfied. */
  predicate MandatoryMet(reqs: seq<Requirement>) {
    forall i :: 0 <= i < |reqs| ==> reqs[i].mandatory ==> reqs[i].satisfied
  }

  class RequirementsModel {
    var requirements: seq<Requirement>
    var satisfiedRequirements: bool
    /** The values carried by satisfiedRequirementsChanged, in emission order. */
    var satisfiedSignals: seq<bool>

    constructor ()
      ensures requirements == [] && satisfiedSignals == []
    {
      requirements := [];
      satisfiedRequirements := false;
      satisfiedSignals := [];
    }

    /** setRequirementsList: the list is replaced wholesale and the satisfied
        flag is set and announced. The loop that looks for an unmet mandatory
        requirement no longer clears the flag, so it is always true. */
    method SetRequirementsList(reqs: seq<Requirement>) returns (announced: bool)
      modifies this
      ensures requirements == reqs
      ensures satisfiedRequirements && announced
      ensures satisfiedSignals == old(satisfiedSignals) + [announced]
    {
      requirements := reqs;
      satisfiedRequirements := true;
      satisfiedSignals := satisfiedSignals + [satisfiedRequirements];
      announced := satisfiedRequirements;
    }

    /** rowCount: one row per stored requirement. */
    function RowCount(): (r: int)
      reads this
      ensures r == |requirements|
    {
      |requirements|
    }

    /** data: the requested field of the requirement at `row`. The source reads
        the row with QList::at, which demands a valid index. */
    function Data(row: int, role: Role): (v: Value)
      reads this
      requires 0 <= row < RowCount()
      ensures role.OtherRole? <==> v == Invalid
      ensures v.Text? <==> role in {NameRole, DetailsRole, NegatedTextRole}
      ensures role == NameRole ==> v == Text(requirements[row].name)
      ensures role == DetailsRole ==> v == Text(requirements[row].details)
      ensures role == NegatedTextRole ==> v == Text(requirements[row].negatedText)
      ensures role == SatisfiedRole ==> v == Flag(requirements[row].satisfied)
      ensures role == MandatoryRole ==> v == Flag(requirements[row].mandatory)
    {
      var requirement := requirements[row];
      match role
      case NameRole => Text(requirement.name)
      case DetailsRole => Text(requirement.details)
      case NegatedTextRole => Text(requirement.negatedText)
      case SatisfiedRole => Flag(requirement.satisfied)
      case MandatoryRole => Flag(requirement.mandatory)
      case OtherRole(_) => Invalid
    }
  }

  /** roleNames: the five served roles and the property names QML uses for them. */
  function RoleNames(): (names: map<Role, string>)
    ensures names.Keys == {NameRole, DetailsRole, NegatedTextRole, SatisfiedRole, MandatoryRole}
    ensures forall r :: r in names ==> names[r] != ""
  {
    map[NameRole := "name", DetailsRole := "details", NegatedTextRole := "negatedText",
        SatisfiedRole := "satisfied", MandatoryRole := "mandatory"]
  }

  /** Every role with a name is served with a value by `Data`, and every other role gets none. */
  lemma NamedRolesServed(m: RequirementsModel, row: int, role: Role)
    requires 0 <= row < m.RowCount()
    ensures role in RoleNames() <==> m.Data(row, role) != Invalid
  {
  }

  /** The flag the model announces does not depend on the requirements:
      handing it a list whose only mandatory requirement is unmet still sets
      and announces true. */
  method SatisfiedDespiteUnmetRequirement(m: RequirementsModel) returns (announced: bool)
    modifies m
    ensures !MandatoryMet(m.requirements)
    ensures m.satisfiedRequirements && announced
    ensures m.satisfiedSignals == old(m.satisfiedSignals) + [true]
  {
    var reqs := [Requirement("storage", "", "", false, true)];
    announced := m.SetRequirementsList(reqs);
    assert m.requirements[0].mandatory && !m.requirements[0].satisfied;
  }

  datatype Signal =
    | IsNextEnabledChanged(next: bool)
    | IsBackEnabledChanged(back: bool)
    | CountryCodeChanged(code: string)
    | LocaleIndexChanged(index: int)

  class Config {
    const requirementsModel: RequirementsModel
    var isNextEnabled: bool
    var isBackEnabled: bool
    var languageIcon: string
    var countryCode: string
    var localeIndex: int
    /** The change signals emitted, in order. */
    var signals: seq<Signal>

    /** The controller owns a fresh requirements model. The initial navigation
        flags are declared outside this class, so they are given. */
    constructor (next: bool, back: bool)
      ensures fresh(requirementsModel) && requirementsModel.requirements == []
      ensures isNextEnabled == next && isBackEnabled == back
      ensures languageIcon == "" && signals == []
    {
      requirementsModel := new RequirementsModel();
      isNextEnabled, isBackEnabled := next, back;
      languageIcon, countryCode, localeIndex := "", "", 0;
      signals := [];
    }

    function LanguageIcon(): string
      reads this
    {
      languageIcon
    }

    /** setLanguageIcon: the icon `LanguageIcon` returns afterwards. */
    method SetLanguageIcon(icon: string)
      modifies this`languageIcon
      ensures LanguageIcon() == icon
    {
      languageIcon := icon;
    }

    /** setIsNextEnabled stores the value and emits one change signal. */
    method SetIsNextEnabled(next: bool)
      modifies this`isNextEnabled, this`signals
      ensures isNextEnabled == next
      ensures signals == old(signals) + [IsNextEnabledChanged(next)]
    {
      isNextEnabled := next;
      signals := signals + [IsNextEnabledChanged(isNextEnabled)];
    }

    /** setIsBackEnabled stores the value and emits one change signal. */
    method SetIsBackEnabled(back: bool)
      modifies this`isBackEnabled, this`signals
      ensures isBackEnabled == back
      ensures signals == old(signals) + [IsBackEnabledChanged(back)]
    {
      isBackEnabled := back;
      signals := signals + [IsBackEnabledChanged(isBackEnabled)];
    }

    /** setCountryCode stores the code, looks up its locale index among the
        available translations (`findTranslation`), and emits both changes. */
    method SetCountryCode(code: string, findTranslation: string -> int)
      modifies this`countryCode, this`localeIndex, this`signals
      ensures countryCode == code && localeIndex == findTranslation(code)
      ensures signals == old(signals) + [CountryCodeChanged(code), LocaleIndexChanged(findTranslation(code))]
    {
      countryCode := code;
      localeIndex := findTranslation(countryCode);
      signals := signals + [CountryCodeChanged(countryCode), LocaleIndexChanged(localeIndex)];
    }

    /** A new requirements list: the model's satisfiedRequirementsChanged
        signal is connected to setIsNextEnabled, so whatever the list holds,
        the next button ends up enabled. */
    method UpdateRequirements(reqs: seq<Requirement>)
      modifies requirementsModel, this`isNextEnabled, this`signals
      ensures requirementsModel.requirements == reqs
      ensures requirementsModel.satisfiedRequirements
      ensures requirementsModel.satisfiedSignals == old(requirementsModel.satisfiedSignals) + [true]
      ensures isNextEnabled
      ensures signals == old(signals) + [IsNextEnabledChanged(true)]
    {
      var announced := requirementsModel.SetRequirementsList(reqs);
      SetIsNextEnabled(announced);
    }
  }
}
