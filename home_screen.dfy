/** The contact-book screen: an ordered list of contacts, a modal form with two
    draft buffers, and the index of the contact being edited, if any.

    The handlers are specified by pure transition functions on `ScreenState`
    (one per handler), and the class `Screen` carries the same five pieces of
    state as mutable fields, with one method per handler whose postcondition
    ties the new state to the transition of the old one. */
module HomeScreen {

  datatype Option<T> = None | Some(value: T)

  /** One entry of the list. */
  datatype Contact = Contact(name: string, number: string)

  /** The five pieces of screen state. */
  datatype ScreenState = ScreenState(
    contacts: seq<Contact>,
    modalVisible: bool,
    draftName: string,
    draftNum: string,
    editIndex: Option<nat>)

  /** The state a freshly mounted screen starts in. */
  const Initial: ScreenState := ScreenState([], false, "", "", None)

  /** The submit check: both drafts must be non-empty strings. Nothing is
      trimmed, so a draft made only of spaces is accepted. */
  predicate Acceptable(name: string, number: string)
  {
    name != "" && number != ""
  }

  /** Every stored contact passed the submit check when it was stored. */
  predicate WellFormed(c: Contact)
  {
    Acceptable(c.name, c.number)
  }

  predicate AllWellFormed(cs: seq<Contact>)
  {
    forall k :: 0 <= k < |cs| ==> WellFormed(cs[k])
  }

  /** The pending edit, if any, names an existing entry. */
  predicate EditTargetInRange(s: ScreenState)
  {
    s.editIndex.None? || s.editIndex.value < |s.contacts|
  }

  /** The screen invariant: stored contacts are well formed, and while the
      form is open the pending edit names an existing entry. (After a cancel
      the stale index may outlive a delete; it is overwritten on the next
      open, so it is only constrained while the form is open.) */
  predicate Valid(s: ScreenState)
  {
    AllWellFormed(s.contacts) && (s.modalVisible ==> EditTargetInRange(s))
  }

  // ---------------------------------------------------------------------
  // Removing an entry: `contacts.filter((_, i) => i !== index)`

  /** The list without the entry at position `index`, built as the filter
      does: every element whose position differs from `index` is kept, in
      order. */
  function Without(cs: seq<Contact>, index: int): seq<Contact>
  {
    if cs == [] then []
    else
      var last := |cs| - 1;
      Without(cs[..last], index) + (if last == index then [] else [cs[last]])
  }

  /** Filtering out a position outside the list keeps every element. */
  lemma {:induction false} WithoutOutside(cs: seq<Contact>, index: int)
    requires index < 0 || index >= |cs|
    ensures Without(cs, index) == cs
  {
    if cs != [] {
      var last := |cs| - 1;
      WithoutOutside(cs[..last], index);
      assert cs[..last] + [cs[last]] == cs;
    }
  }

  /** Filtering out a position inside the list removes exactly that entry:
      the entries before it stay, the entries after it shift left by one. */
  lemma {:induction false} WithoutRemovesOne(cs: seq<Contact>, index: int)
    requires 0 <= index < |cs|
    ensures Without(cs, index) == cs[..index] + cs[index + 1..]
  {
    var last := |cs| - 1;
    if index == last {
      WithoutOutside(cs[..last], index);
    } else {
      WithoutRemovesOne(cs[..last], index);
      assert cs[..last][..index] == cs[..index];
      assert cs[..last][index + 1..] + [cs[last]] == cs[index + 1..];
    }
  }

  /** What a removal at a valid position means, index by index. */
  lemma RemovalAt(cs: seq<Contact>, index: int)
    requires 0 <= index < |cs|
    ensures |Without(cs, index)| == |cs| - 1
    ensures forall k :: 0 <= k < index ==> Without(cs, index)[k] == cs[k]
    ensures forall k :: index <= k < |cs| - 1 ==> Without(cs, index)[k] == cs[k + 1]
    ensures multiset(Without(cs, index)) + multiset{cs[index]} == multiset(cs)
  {
    var r := Without(cs, index);
    var before, after := cs[..index], cs[index + 1..];
    WithoutRemovesOne(cs, index);
    assert r == before + after;
    forall k | 0 <= k < index
      ensures r[k] == cs[k]
    {
      assert r[k] == before[k];
    }
    forall k | index <= k < |cs| - 1
      ensures r[k] == cs[k + 1]
    {
      assert r[k] == after[k - index];
    }
    RemovalSplit(cs, index);
  }

  lemma RemovalSplit(cs: seq<Contact>, index: int)
    requires 0 <= index < |cs|
    ensures multiset(cs[..index] + cs[index + 1..]) + multiset{cs[index]} == multiset(cs)
  {
    var before, after := cs[..index], cs[index + 1..];
    assert cs == before + [cs[index]] + after;
  }

  // ---------------------------------------------------------------------
  // The handlers as transitions

  /** The "new contact" button: clear both drafts, no pending edit, open the
      form. The list is untouched. */
  function OpenedForCreate(s: ScreenState): (r: ScreenState)
    ensures r.contacts == s.contacts
    ensures r.draftName == "" && r.draftNum == ""
    ensures r.editIndex == None && r.modalVisible
  {
    s.(draftName := "", draftNum := "", editIndex := None, modalVisible := true)
  }

  /** `openEditModal(index)`: load the drafts from the entry, remember its
      index and open the form. The list is untouched. */
  function OpenedForEdit(s: ScreenState, index: nat): (r: ScreenState)
    requires index < |s.contacts|
    ensures r.contacts == s.contacts
    ensures Contact(r.draftName, r.draftNum) == s.contacts[index]
    ensures r.editIndex == Some(index) && r.modalVisible
  {
    s.(draftName := s.contacts[index].name, draftNum := s.contacts[index].number,
       editIndex := Some(index), modalVisible := true)
  }

  /** Typing into the name field replaces the name draft, nothing else. */
  function WithDraftName(s: ScreenState, text: string): (r: ScreenState)
    ensures r.draftName == text
    ensures r == s.(draftName := r.draftName)
  {
    s.(draftName := text)
  }

  /** Typing into the number field replaces the number draft, nothing else. */
  function WithDraftNum(s: ScreenState, text: string): (r: ScreenState)
    ensures r.draftNum == text
    ensures r == s.(draftNum := r.draftNum)
  {
    s.(draftNum := text)
  }

  /** The cancel button and the modal's close request: only hide the form.
      The drafts and the pending edit are kept. */
  function Cancelled(s: ScreenState): (r: ScreenState)
    ensures !r.modalVisible
    ensures r == s.(modalVisible := r.modalVisible)
  {
    s.(modalVisible := false)
  }

  /** `addOrEditContact`: with an empty draft nothing changes; otherwise the
      draft is appended (no pending edit) or written over the pending entry
      (which is then cleared), and the form is cleared and closed. */
  function Submitted(s: ScreenState): (r: ScreenState)
    requires EditTargetInRange(s)
    ensures !Acceptable(s.draftName, s.draftNum) ==> r == s
    ensures Acceptable(s.draftName, s.draftNum) ==>
      r.draftName == "" && r.draftNum == "" && !r.modalVisible && r.editIndex == None
    ensures Acceptable(s.draftName, s.draftNum) && s.editIndex.None? ==>
      |r.contacts| == |s.contacts| + 1 &&
      r.contacts[..|s.contacts|] == s.contacts &&
      r.contacts[|s.contacts|] == Contact(s.draftName, s.draftNum)
    ensures Acceptable(s.draftName, s.draftNum) && s.editIndex.Some? ==>
      |r.contacts| == |s.contacts| &&
      r.contacts[s.editIndex.value] == Contact(s.draftName, s.draftNum) &&
      forall k :: 0 <= k < |s.contacts| && k != s.editIndex.value ==> r.contacts[k] == s.contacts[k]
  {
    if !Acceptable(s.draftName, s.draftNum) then s
    else
      var draft := Contact(s.draftName, s.draftNum);
      var contacts := match s.editIndex
        case None => s.contacts + [draft]
        case Some(k) => s.contacts[k := draft];
      s.(contacts := contacts, editIndex := None, draftName := "", draftNum := "", modalVisible := false)
  }

  /** `confirmDelete(index)` followed by the user's answer: only "Excluir"
      (`confirmed`) removes the entry; "Cancelar" leaves everything as is.
      The form state is never touched. */
  function Deleted(s: ScreenState, index: nat, confirmed: bool): (r: ScreenState)
    requires index < |s.contacts|
    ensures r == s.(contacts := r.contacts)
    ensures !confirmed ==> r.contacts == s.contacts
    ensures confirmed ==>
      |r.contacts| == |s.contacts| - 1 &&
      r.contacts == s.contacts[..index] + s.contacts[index + 1..]
  {
    WithoutRemovesOne(s.contacts, index);
    if confirmed then s.(contacts := Without(s.contacts, index)) else s
  }

  // ---------------------------------------------------------------------
  // Invariant preservation

  /** A submit keeps every stored contact well formed: nothing that fails the
      check ever reaches the list. */
  lemma SubmitKeepsWellFormed(s: ScreenState)
    requires EditTargetInRange(s) && AllWellFormed(s.contacts)
    ensures AllWellFormed(Submitted(s).contacts)
  {
  }

  /** A removal keeps every remaining contact well formed. */
  lemma DeleteKeepsWellFormed(s: ScreenState, index: nat, confirmed: bool)
    requires index < |s.contacts| && AllWellFormed(s.contacts)
    ensures AllWellFormed(Deleted(s, index, confirmed).contacts)
  {
  }

  /** Opening a contact for edit and then cancelling leaves the list exactly
      as it was before the edit was opened. */
  lemma EditThenCancelKeepsList(s: ScreenState, index: nat)
    requires index < |s.contacts|
    ensures Cancelled(OpenedForEdit(s, index)).contacts == s.contacts
    ensures !Cancelled(OpenedForEdit(s, index)).modalVisible
  {
  }

  /** Re-submitting an opened entry unchanged gives back the same list. */
  lemma EditUnchangedSubmitKeepsList(s: ScreenState, index: nat)
    requires index < |s.contacts| && WellFormed(s.contacts[index])
    ensures Submitted(OpenedForEdit(s, index)).contacts == s.contacts
  {
  }

  // ---------------------------------------------------------------------
  // The screen as a state machine driven by user events

  datatype Event =
    | NewContactPressed
    | EditPressed(index: nat)
    | NameTyped(text: string)
    | NumberTyped(text: string)
    | SubmitPressed
    | CancelPressed
    | DeleteAnswered(index: nat, confirmed: bool)

  /** Which events the rendered screen can deliver. The modal's backdrop
      fills the screen, so the list's buttons are reachable only while the
      form is closed and the form's controls only while it is open; the edit
      and delete buttons exist only for rendered entries. */
  predicate Enabled(s: ScreenState, e: Event)
  {
    match e
    case NewContactPressed => !s.modalVisible
    case EditPressed(i) => !s.modalVisible && i < |s.contacts|
    case DeleteAnswered(i, _) => !s.modalVisible && i < |s.contacts|
    case SubmitPressed => s.modalVisible && EditTargetInRange(s)
    case _ => s.modalVisible
  }

  /** One handler run in response to an enabled event. */
  function Step(s: ScreenState, e: Event): ScreenState
    requires Enabled(s, e)
  {
    match e
    case NewContactPressed => OpenedForCreate(s)
    case EditPressed(i) => OpenedForEdit(s, i)
    case NameTyped(t) => WithDraftName(s, t)
    case NumberTyped(t) => WithDraftNum(s, t)
    case SubmitPressed => Submitted(s)
    case CancelPressed => Cancelled(s)
    case DeleteAnswered(i, c) => Deleted(s, i, c)
  }

  /** The state after a sequence of user events; an event the screen cannot
      deliver in the current state has no effect. */
  function Run(s: ScreenState, es: seq<Event>): ScreenState
    decreases |es|
  {
    if es == [] then s
    else
      var next := if Enabled(s, es[0]) then Step(s, es[0]) else s;
      Run(next, es[1..])
  }

  /** Every handler run on an enabled event keeps the screen invariant. */
  lemma StepKeepsValid(s: ScreenState, e: Event)
    requires Valid(s) && Enabled(s, e)
    ensures Valid(Step(s, e))
  {
  }

  /** Every state reachable from a valid one by user events is valid. */
  lemma {:induction false} RunKeepsValid(s: ScreenState, es: seq<Event>)
    requires Valid(s)
    ensures Valid(Run(s, es))
    decreases |es|
  {
    if es != [] {
      var next := if Enabled(s, es[0]) then Step(s, es[0]) else s;
      if Enabled(s, es[0]) {
        StepKeepsValid(s, es[0]);
      }
      RunKeepsValid(next, es[1..]);
    }
  }

  /** Every state the screen can reach from mounting is valid: in particular
      every stored contact has a non-empty name and number, and a submit
      while the form is open never writes past the end of the list. */
  lemma ReachableIsValid(es: seq<Event>)
    ensures Valid(Run(Initial, es))
  {
    RunKeepsValid(Initial, es);
  }

  // ---------------------------------------------------------------------
  // The screen with its state held in mutable fields

  class Screen {
    var contacts: seq<Contact>
    var modalVisible: bool
    var draftName: string
    var draftNum: string
    var editIndex: Option<nat>

    /** The five fields as one value. */
    function State(): ScreenState
      reads this
    {
      ScreenState(contacts, modalVisible, draftName, draftNum, editIndex)
    }

    /** Mounting the screen: every `useState` at its initial value. */
    constructor ()
      ensures State() == Initial
      ensures Valid(State())
    {
      contacts := [];
      modalVisible := false;
      draftName := "";
      draftNum := "";
      editIndex := None;
    }

    /** The "new contact" button. */
    method OpenCreate()
      modifies this
      ensures State() == OpenedForCreate(old(State()))
      ensures old(Valid(State())) ==> Valid(State())
    {
      draftName := "";
      draftNum := "";
      editIndex := None;
      modalVisible := true;
    }

    /** `openEditModal(index)`. */
    method OpenEdit(index: nat)
      requires index < |contacts|
      modifies this
      ensures State() == OpenedForEdit(old(State()), index)
      ensures old(Valid(State())) ==> Valid(State())
    {
      draftName := contacts[index].name;
      draftNum := contacts[index].number;
      editIndex := Some(index);
      modalVisible := true;
    }

    /** The name field's `onChangeText`. */
    method SetDraftName(text: string)
      modifies this
      ensures State() == WithDraftName(old(State()), text)
      ensures old(Valid(State())) ==> Valid(State())
    {
      draftName := text;
    }

    /** The number field's `onChangeText`. */
    method SetDraftNum(text: string)
      modifies this
      ensures State() == WithDraftNum(old(State()), text)
      ensures old(Valid(State())) ==> Valid(State())
    {
      draftNum := text;
    }

    /** The cancel button and the modal's `onRequestClose`. */
    method Cancel()
      modifies this
      ensures State() == Cancelled(old(State()))
      ensures old(Valid(State())) ==> Valid(State())
    {
      modalVisible := false;
    }

    /** `addOrEditContact`; `ok` is false exactly when the validation alert
        is raised. The edit path copies the list into a fresh array, writes
        the draft into the copy and stores the copy. */
    method Submit() returns (ok: bool)
      requires EditTargetInRange(State())
      modifies this
      ensures ok == Acceptable(old(draftName), old(draftNum))
      ensures State() == Submitted(old(State()))
      ensures old(Valid(State())) ==> Valid(State())
    {
      ghost var before := State();
      if Valid(before) {
        SubmitKeepsWellFormed(before);
      }
      if draftName == "" || draftNum == "" {
        return false;
      }
      ok := true;
      var draft := Contact(draftName, draftNum);
      match editIndex {
        case None =>
          contacts := contacts + [draft];
        case Some(k) =>
          var snapshot := contacts;
          var updated := new Contact[|snapshot|](j requires 0 <= j < |snapshot| => snapshot[j]);
          updated[k] := draft;
          contacts := updated[..];
          assert contacts == snapshot[k := draft];
          editIndex := None;
      }
      draftName := "";
      draftNum := "";
      modalVisible := false;
    }

    /** `confirmDelete(index)` together with the answer to its dialog. */
    method Delete(index: nat, confirmed: bool)
      requires index < |contacts|
      modifies this
      ensures State() == Deleted(old(State()), index, confirmed)
      ensures old(Valid(State())) ==> AllWellFormed(contacts)
      ensures old(Valid(State())) && !modalVisible ==> Valid(State())
    {
      if Valid(State()) {
        DeleteKeepsWellFormed(State(), index, confirmed);
      }
      if confirmed {
        contacts := Without(contacts, index);
      }
    }
  }
}
