/**
  The filter card beside the job list: one radio group per filter type, a
  reset button, and an effect that publishes the selection to the store as
  `searchedQuery` whenever it changes.
*/
module FilterCard {

  /** The two filter types, keys of the selection. */
  datatype FilterType = Location | Field

  /** The selection: one chosen value per filter type, "" for none. */
  datatype Selection = Selection(location: string, field: string)

  /** Nothing chosen: the initial selection and the one reset restores. */
  const Cleared: Selection := Selection("", "")

  /** The value chosen for filter type `t`. */
  function Get(sel: Selection, t: FilterType): string {
    match t
    case Location => sel.location
    case Field => sel.field
  }

  /** `{ ...sel, [t]: value }`: the selection with the value for `t` replaced. */
  function With(sel: Selection, t: FilterType, value: string): (r: Selection)
    ensures Get(r, t) == value
    ensures forall other :: other != t ==> Get(r, other) == Get(sel, other)
  {
    match t
    case Location => sel.(location := value)
    case Field => sel.(field := value)
  }

  /** The locations offered. */
  const Locations: seq<string> := ["Hồ Chí Minh", "Hà Nội", "Đà Nẵng", "Cần Thơ", "Hải Phòng"]

  /** The fields offered. */
  const Fields: seq<string> := [
    "Frontend Developer", "Backend Developer", "Full Stack Developer",
    "DevOps Engineer", "Data Analyst", "Mobile App Developer",
    "Software Tester (QA/QC)", "AI/ML Engineer", "IT Support Specialist"
  ]

  /** The values the radio group of `t` offers. */
  function Options(t: FilterType): seq<string> {
    match t
    case Location => Locations
    case Field => Fields
  }

  /** Each chosen value is "" or one the radio groups offer. */
  predicate Offered(sel: Selection) {
    forall t :: Get(sel, t) == "" || Get(sel, t) in Options(t)
  }

  /** Five locations and nine fields are offered, none of them empty, so the cleared selection is one with nothing chosen. */
  lemma OptionsListed()
    ensures |Options(Location)| == 5 && |Options(Field)| == 9
    ensures forall t :: "" !in Options(t)
    ensures Offered(Cleared)
  {
  }

  /** The card's state: the selection and the value last published to the store. */
  class FilterCard {
    var selectedValues: Selection
    var searchedQuery: Selection

    /** The effect has run since the last change: the store holds the current selection. */
    ghost predicate Valid()
      reads this
    {
      searchedQuery == selectedValues
    }

    /** Mounting: nothing chosen, and the effect publishes that. */
    constructor ()
      ensures Valid() && selectedValues == Cleared && Offered(selectedValues)
    {
      selectedValues := Cleared;
      searchedQuery := selectedValues;
    }

    /** `changeHandler(value, type)` followed by the effect it triggers. */
    method ChangeHandler(value: string, t: FilterType)
      requires Valid()
      modifies this
      ensures Valid()
      ensures selectedValues == With(old(selectedValues), t, value)
      ensures Offered(old(selectedValues)) && value in Options(t) ==> Offered(selectedValues)
    {
      selectedValues := With(selectedValues, t, value);
      searchedQuery := selectedValues;
    }

    /** `resetFilters` followed by the effect: from any state, nothing chosen. */
    method ResetFilters()
      requires Valid()
      modifies this
      ensures Valid() && selectedValues == Cleared
    {
      selectedValues := Cleared;
      searchedQuery := selectedValues;
    }
  }

  /** Resetting twice is resetting once. */
  method ResetTwice(card: FilterCard)
    requires card.Valid()
    modifies card
    ensures card.Valid() && card.selectedValues == Cleared
  {
    card.ResetFilters();
    card.ResetFilters();
  }
}
