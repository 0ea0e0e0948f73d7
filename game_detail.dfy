/** The game detail page: a click on an available court spot selects the
    first position option whose text names the spot, a change of the
    select highlights the matching spot, and the registration form is not
    sent without a position. */
module GameDetail {
  import opened Wrappers
  import opened Text

  /** A .position-spot element: data-title, data-position (None when the
      attribute is absent) and whether it has the 'available' class. */
  datatype Spot = Spot(title: string, position: Option<string>, available: bool)

  /** An <option> of the position select. */
  datatype SelectOption = SelectOption(text: string, value: string)

  /** The index of the first option whose text contains `title`. */
  function FirstOptionFor(options: seq<SelectOption>, title: string): (r: Option<nat>)
    ensures r.Some? ==> r.value < |options| && Contains(options[r.value].text, title)
    ensures r.Some? ==> forall j :: 0 <= j < r.value ==> !Contains(options[j].text, title)
    ensures r.None? <==> forall j :: 0 <= j < |options| ==> !Contains(options[j].text, title)
  {
    if options == [] then None
    else if Contains(options[0].text, title) then Some(0)
    else
      var rest := FirstOptionFor(options[1..], title);
      assert forall j :: 1 <= j < |options| ==> options[j] == options[1..][j - 1];
      if rest.None? then None else Some(rest.value + 1)
  }

  /** The index of the first spot whose data-position equals `id`, as
      document.querySelector finds it. */
  function FirstSpotFor(spots: seq<Spot>, id: string): (r: Option<nat>)
    ensures r.Some? ==> r.value < |spots| && spots[r.value].position == Some(id)
    ensures r.Some? ==> forall j :: 0 <= j < r.value ==> spots[j].position != Some(id)
    ensures r.None? <==> forall j :: 0 <= j < |spots| ==> spots[j].position != Some(id)
  {
    if spots == [] then None
    else if spots[0].position == Some(id) then Some(0)
    else
      var rest := FirstSpotFor(spots[1..], id);
      assert forall j :: 1 <= j < |spots| ==> spots[j] == spots[1..][j - 1];
      if rest.None? then None else Some(rest.value + 1)
  }

  /** The change handler passes the option's text where the spots carry the
      position id: an option "Point Guard" with value "1" does not
      highlight the spot whose data-position is "1". */
  lemma {:induction false} HighlightUsesOptionText()
    ensures var spots := [Spot("Point Guard", Some("1"), true)];
      var option := SelectOption("Point Guard", "1");
      && FirstSpotFor(spots, option.value) == Some(0)
      && FirstSpotFor(spots, option.text) == None
  {
    var spots := [Spot("Point Guard", Some("1"), true)];
    assert spots[0].position != Some("Point Guard");
  }

  class GameDetailPage {
    const spots: seq<Spot>
    /** The 'selected' class of each spot. */
    const selected: array<bool>
    /** The position select, when the page has one. */
    const options: Option<seq<SelectOption>>
    var selectValue: string

    ghost predicate Valid()
      reads this
    {
      selected.Length == |spots|
    }

    constructor (spots: seq<Spot>, options: Option<seq<SelectOption>>, selectValue: string)
      ensures Valid() && fresh(selected)
      ensures this.spots == spots && this.options == options && this.selectValue == selectValue
      ensures forall j :: 0 <= j < |spots| ==> !selected[j]
    {
      this.spots := spots;
      this.options := options;
      this.selectValue := selectValue;
      selected := new bool[|spots|](_ => false);
    }

    /** Whether a click on spot k finds an option to select: the spot is
        available, the user confirms, the page has a select and one of its
        options names the spot. */
    predicate ClickSelects(k: nat, confirmed: bool)
      requires k < |spots|
    {
      spots[k].available && confirmed && options.Some?
      && FirstOptionFor(options.value, spots[k].title).Some?
    }

    /** A click on spot k: only an available spot whose confirmation the
        user accepts changes the select, which takes the value of the first
        option naming the spot; with no such option it keeps its value. */
    method SpotClick(k: nat, confirmed: bool)
      requires Valid() && k < |spots|
      modifies this`selectValue
      ensures ClickSelects(k, confirmed) ==>
        selectValue == options.value[FirstOptionFor(options.value, spots[k].title).value].value
      ensures !ClickSelects(k, confirmed) ==> selectValue == old(selectValue)
      ensures (ClickSelects(k, confirmed)
        && options.value[FirstOptionFor(options.value, spots[k].title).value].value != []) ==> !SubmitBlocked()
    {
      var title := spots[k].title;
      if spots[k].available {
        if confirmed {
          if options.Some? {
            var opts := options.value;
            var i := 0;
            while i < |opts|
              invariant 0 <= i <= |opts|
              invariant forall j :: 0 <= j < i ==> !Contains(opts[j].text, title)
              invariant selectValue == old(selectValue)
            {
              if Contains(opts[i].text, title) {
                selectValue := opts[i].value;
                break;
              }
              i := i + 1;
            }
          }
        }
      }
    }

    /** highlightSelectedPosition: every spot loses 'selected', then the
        first spot whose data-position equals `id` gains it. */
    method HighlightSelectedPosition(id: string)
      requires Valid()
      modifies selected
      ensures forall j :: 0 <= j < |spots| ==> selected[j] == (FirstSpotFor(spots, id) == Some(j))
    {
      var i := 0;
      while i < selected.Length
        invariant 0 <= i <= selected.Length
        invariant forall j :: 0 <= j < i ==> !selected[j]
      {
        selected[i] := false;
        i := i + 1;
      }
      var target := FirstSpotFor(spots, id);
      if target.Some? {
        selected[target.value] := true;
      }
    }

    /** The select's change handler: picking option `index` with a
        non-empty value highlights the spots by that option's text. */
    method SelectChange(index: nat)
      requires Valid() && options.Some? && index < |options.value|
      modifies this`selectValue, selected
      ensures selectValue == options.value[index].value
      ensures options.value[index].value != [] ==>
        forall j :: 0 <= j < |spots| ==> selected[j] == (FirstSpotFor(spots, options.value[index].text) == Some(j))
      ensures options.value[index].value == [] ==> selected[..] == old(selected[..])
      ensures SubmitBlocked() <==> options.value[index].value == []
    {
      selectValue := options.value[index].value;
      var option := options.value[index];
      if option.value != [] {
        HighlightSelectedPosition(option.text);
      }
    }

    /** The registration form's submit listener: the submit is blocked
        while the select holds no value. */
    predicate SubmitBlocked()
      reads this
    {
      selectValue == []
    }
  }
}
