/**
 * The template picker of the habits page: the set of selected template
 * names, how a click changes it, and which templates are marked as added.
 * The template list itself is a parameter.
 */
module HabitsClient {
  import opened Text
  import opened TrackerActions

  /** `toggle(name)`: remove the name when selected, add it otherwise. */
  function ToggleSelection(selected: set<string>, name: string): (r: set<string>)
    ensures name in r <==> name !in selected
    ensures forall n :: n != name ==> (n in r <==> n in selected)
  {
    if name in selected then selected - {name} else selected + {name}
  }

  /** Toggling a name twice gives back the selection. */
  lemma ToggleTwice(selected: set<string>, name: string)
    ensures ToggleSelection(ToggleSelection(selected, name), name) == selected
  {
  }

  /** Toggles of two names can happen in either order. */
  lemma TogglesCommute(selected: set<string>, a: string, b: string)
    ensures ToggleSelection(ToggleSelection(selected, a), b) == ToggleSelection(ToggleSelection(selected, b), a)
  {
  }

  /** `selectAll`: `new Set(HABIT_TEMPLATES)`. */
  function SelectAll(templates: seq<string>): (r: set<string>)
    ensures forall n :: n in r <==> n in templates
    ensures |r| <= |templates|
  {
    if templates == [] then {} else SelectAll(templates[1..]) + {templates[0]}
  }

  /** `existingNames.has(name.toLowerCase())`: the template is lowered but not trimmed. */
  predicate AlreadyAdded(habitNames: seq<string>, name: string) {
    Lower(name) in NameKeys(habitNames)
  }

  /**
   * For a template without surrounding blanks, the "Added" mark is shown
   * exactly when `applyTemplate` would skip that template.
   */
  lemma AddedMarkMatchesServer(habitNames: seq<string>, name: string)
    requires Trimmed(name)
    ensures AlreadyAdded(habitNames, name) <==> NamesToInsert([name], NameKeys(habitNames)) == []
  {
    TrimProperties(name);
    var r := NamesToInsert([name], NameKeys(habitNames));
    assert TrimAll([name]) == [name];
    if r != [] {
      assert r[0] in r;
    }
  }

  /**
   * A template with a leading blank is not marked as added, although the
   * server skips it as already present.
   */
  lemma AddedMarkIgnoresBlanks()
    ensures !AlreadyAdded(["Read"], " Read")
    ensures NamesToInsert([" Read"], NameKeys(["Read"])) == []
  {
    assert Trim("Read") == "Read" && Lower("Read") == "read" by {
      assert "Read"[1..] == "ead";
    }
    assert NormalizeName("Read") == "read";
    assert NameKeys(["Read"]) == {"read"};
    assert |Lower(" Read")| == 5;
    assert " Read"[1..] == "Read";
    assert TrimStart(" Read") == "Read";
    assert Trim(" Read") == "Read";
    assert TrimAll([" Read"]) == ["Read"];
  }

  /** The "Add selected" button: disabled while applying or with nothing selected. */
  predicate AddDisabled(pending: bool, selected: set<string>) {
    pending || |selected| == 0
  }

  /** A template's checkbox: disabled while applying or once the template is added. */
  predicate CheckboxDisabled(pending: bool, habitNames: seq<string>, name: string) {
    pending || AlreadyAdded(habitNames, name)
  }

  /**
   * A template's checkbox is always disabled while applying. Otherwise, for a
   * template without surrounding blanks, it is disabled exactly when
   * `applyTemplate` would skip that template.
   */
  lemma CheckboxBlocksSkipped(habitNames: seq<string>, name: string)
    requires Trimmed(name)
    ensures CheckboxDisabled(true, habitNames, name)
    ensures CheckboxDisabled(false, habitNames, name) <==> NamesToInsert([name], NameKeys(habitNames)) == []
  {
    AddedMarkMatchesServer(habitNames, name);
  }

  /** The picker's state: the selection and the error line. */
  datatype TemplatePanel = TemplatePanel(selected: set<string>, error: string)

  /**
   * `addSelected` once the server answered: an error keeps the selection and
   * shows the message; success clears the selection (the page then reloads).
   */
  function AfterApply(panel: TemplatePanel, result: ActionState): (r: TemplatePanel)
    ensures r.selected == {} <==> result.Ok? || panel.selected == {}
    ensures result.Failed? ==> r == TemplatePanel(panel.selected, result.message)
    ensures result.Ok? ==> r.error == ""
  {
    match result
    case Ok => TemplatePanel({}, "")
    case Failed(message) => TemplatePanel(panel.selected, message)
  }

  /** After a successful apply nothing can be added until a template is selected again. */
  lemma AddDisabledAfterApply(panel: TemplatePanel, pending: bool)
    ensures AddDisabled(pending, AfterApply(panel, Ok).selected)
  {
  }

  /** Selecting a template that is not yet selected enables the button when nothing is pending. */
  lemma SelectingEnablesAdd(selected: set<string>, name: string)
    requires name !in selected
    ensures !AddDisabled(false, ToggleSelection(selected, name))
  {
    assert name in ToggleSelection(selected, name);
  }
}
