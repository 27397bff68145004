/** The dropdown filter (components/Dropdown.tsx): the text on its button,
    the entries of its open list with the active one marked, and its
    expanded state under the toggle, a selection and a click elsewhere. */
module Dropdowns {
  import opened Wrappers

  /** An option; `caption` is its `label`. */
  datatype DropdownOption = DropdownOption(value: string, caption: string, icon: Option<string>)

  /** The value of the synthetic "all" entry. */
  const AllValue := "all"

  /** The index `options.find(opt => opt.value === value)` stops at. */
  function FindOption(options: seq<DropdownOption>, value: string): (r: Option<nat>)
    ensures r.None? <==> forall i :: 0 <= i < |options| ==> options[i].value != value
    ensures r.Some? ==> r.value < |options| && options[r.value].value == value
                        && forall j :: 0 <= j < r.value ==> options[j].value != value
    decreases |options|
  {
    if options == [] then None
    else if options[0].value == value then Some(0)
    else
      match FindOption(options[1..], value)
      case None => None
      case Some(i) => Some(i + 1)
  }

  /** `displayText`. */
  function DisplayText(options: seq<DropdownOption>, value: string, placeholder: string,
                       allOptionLabel: string, showAllOption: bool): (r: string)
    ensures (exists i :: 0 <= i < |options| && options[i].value == value) ==>
              exists i :: 0 <= i < |options| && options[i].value == value && r == options[i].caption
    ensures (forall i :: 0 <= i < |options| ==> options[i].value != value) ==>
              r == if showAllOption && value == AllValue then allOptionLabel else placeholder
  {
    match FindOption(options, value)
    case Some(i) => options[i].caption
    case None => if showAllOption && value == AllValue then allOptionLabel else placeholder
  }

  /** The button shows the caption of the first option holding the value;
      failing that, the "all" caption when that entry is shown and selected,
      and the placeholder otherwise. */
  lemma DisplayTextCases(options: seq<DropdownOption>, value: string, placeholder: string,
                         allOptionLabel: string, showAllOption: bool)
    ensures forall i :: 0 <= i < |options| && options[i].value == value
              && (forall j :: 0 <= j < i ==> options[j].value != value)
              ==> DisplayText(options, value, placeholder, allOptionLabel, showAllOption) == options[i].caption
    ensures (forall i :: 0 <= i < |options| ==> options[i].value != value)
              ==> DisplayText(options, value, placeholder, allOptionLabel, showAllOption)
                  == if showAllOption && value == AllValue then allOptionLabel else placeholder
  {
    match FindOption(options, value)
    case None =>
    case Some(k) =>
      forall i | 0 <= i < |options| && options[i].value == value
                 && (forall j :: 0 <= j < i ==> options[j].value != value)
        ensures options[i].caption == options[k].caption
      {
        assert !(k < i) && !(i < k);
      }
  }

  /** One button of the open list. */
  datatype Entry = Entry(value: string, caption: string, active: bool)

  /** The open list: the "all" entry first when `showAllOption`, then one
      entry per option in order; nothing while collapsed. */
  function Entries(options: seq<DropdownOption>, value: string, allOptionLabel: string,
                   showAllOption: bool, isExpanded: bool): (r: seq<Entry>)
    ensures !isExpanded ==> r == []
    ensures isExpanded ==> |r| == |options| + (if showAllOption then 1 else 0)
  {
    if !isExpanded then []
    else
      (if showAllOption then [Entry(AllValue, allOptionLabel, value == AllValue)] else [])
      + seq(|options|, i requires 0 <= i < |options| =>
              Entry(options[i].value, options[i].caption, value == options[i].value))
  }

  /** The list is shown only when expanded, starts with the "all" entry
      exactly when `showAllOption`, lists the options in order after it, and
      marks an entry active exactly when its value is the current one. */
  lemma EntriesShape(options: seq<DropdownOption>, value: string, allOptionLabel: string,
                     showAllOption: bool, isExpanded: bool)
    ensures var es := Entries(options, value, allOptionLabel, showAllOption, isExpanded);
            var offset := if showAllOption then 1 else 0;
            && (!isExpanded ==> es == [])
            && (isExpanded ==> |es| == offset + |options|)
            && (isExpanded && showAllOption ==> es[0].value == AllValue && es[0].caption == allOptionLabel)
            && (isExpanded ==> forall i :: 0 <= i < |options| ==>
                  es[offset + i].value == options[i].value && es[offset + i].caption == options[i].caption)
            && (forall i :: 0 <= i < |es| ==> (es[i].active <==> es[i].value == value))
  {
  }

  class Dropdown {
    var isExpanded: bool

    constructor()
      ensures !isExpanded
    {
      isExpanded := false;
    }

    /** The toggle button. */
    method Toggle()
      modifies this
      ensures isExpanded == !old(isExpanded)
    {
      isExpanded := !isExpanded;
    }

    /** `handleSelect(optionValue)`: the value passed to `onChange`, once,
        and the list collapses. */
    method HandleSelect(optionValue: string) returns (changed: string)
      modifies this
      ensures changed == optionValue
      ensures !isExpanded
    {
      changed := optionValue;
      isExpanded := false;
    }

    /** A `mousedown` anywhere in the document. The listener is attached
        only while expanded, and collapses the list when the target lies
        outside the dropdown. */
    method MouseDown(insideDropdown: bool)
      modifies this
      ensures isExpanded == (old(isExpanded) && insideDropdown)
    {
      if isExpanded && !insideDropdown {
        isExpanded := false;
      }
    }
  }
}
