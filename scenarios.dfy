/** Whole sessions on the contact-book screen, from mounting onwards. */
module Scenarios {
  import opened Display
  import opened HomeScreen

  /** The display strings of a list, one per row, in list order. */
  function NumberLines(cs: seq<Contact>): (r: seq<string>)
    ensures |r| == |cs|
    ensures forall k :: 0 <= k < |cs| ==> r[k] == FormatNumber(cs[k].number)
  {
    seq(|cs|, k requires 0 <= k < |cs| => FormatNumber(cs[k].number))
  }

  /** A confirmed delete removes exactly that row's display line; the other
      lines keep their order. */
  lemma DeleteDropsLine(s: ScreenState, index: nat)
    requires index < |s.contacts|
    ensures NumberLines(Deleted(s, index, true).contacts) ==
            NumberLines(s.contacts)[..index] + NumberLines(s.contacts)[index + 1..]
  {
    var lines := NumberLines(s.contacts);
    var after := NumberLines(Deleted(s, index, true).contacts);
    var expected := lines[..index] + lines[index + 1..];
    assert |after| == |expected|;
    forall k | 0 <= k < |after|
      ensures after[k] == expected[k]
    {
      if k < index {
        assert expected[k] == lines[k];
      } else {
        assert expected[k] == lines[k + 1];
      }
    }
  }

  /** A successful submit in create mode adds one display line at the end:
      the formatted draft number. */
  lemma SubmitAddsLine(s: ScreenState)
    requires s.editIndex.None? && Acceptable(s.draftName, s.draftNum)
    ensures NumberLines(Submitted(s).contacts) == NumberLines(s.contacts) + [FormatNumber(s.draftNum)]
  {
    var lines := NumberLines(s.contacts);
    var after := NumberLines(Submitted(s).contacts);
    var expected := lines + [FormatNumber(s.draftNum)];
    assert |after| == |expected|;
    forall k | 0 <= k < |after|
      ensures after[k] == expected[k]
    {
      if k < |lines| {
        assert Submitted(s).contacts[k] == s.contacts[k];
      }
    }
  }

  /** A successful submit in edit mode changes only the edited row's display
      line, to the formatted draft number. */
  lemma SubmitReplacesLine(s: ScreenState)
    requires s.editIndex.Some? && s.editIndex.value < |s.contacts|
    requires Acceptable(s.draftName, s.draftNum)
    ensures NumberLines(Submitted(s).contacts) ==
            NumberLines(s.contacts)[s.editIndex.value := FormatNumber(s.draftNum)]
  {
    var lines := NumberLines(s.contacts);
    var after := NumberLines(Submitted(s).contacts);
    var expected := lines[s.editIndex.value := FormatNumber(s.draftNum)];
    assert |after| == |expected|;
    forall k | 0 <= k < |after|
      ensures after[k] == expected[k]
    {
    }
  }

  /** Each event applied in turn splits off the front of a run. */
  lemma {:induction false} RunAppend(s: ScreenState, es: seq<Event>, e: Event)
    ensures Run(s, es + [e]) == (var t := Run(s, es); if Enabled(t, e) then Step(t, e) else t)
    decreases |es|
  {
    if es == [] {
      assert Run(s, [e]) == Run(if Enabled(s, e) then Step(s, e) else s, []);
    } else {
      var next := if Enabled(s, es[0]) then Step(s, es[0]) else s;
      assert (es + [e])[0] == es[0] && (es + [e])[1..] == es[1..] + [e];
      RunAppend(next, es[1..], e);
    }
  }

  /** Typing a contact into a freshly opened form and submitting it. */
  function AddEvents(name: string, number: string): seq<Event>
  {
    [NewContactPressed, NameTyped(name), NumberTyped(number), SubmitPressed]
  }

  /** Adding a contact through the form on a closed screen appends it,
      whatever draft and pending edit the previous session left behind. */
  lemma AddThroughForm(s: ScreenState, name: string, number: string)
    requires !s.modalVisible && Acceptable(name, number)
    ensures Run(s, AddEvents(name, number)).contacts == s.contacts + [Contact(name, number)]
    ensures !Run(s, AddEvents(name, number)).modalVisible
  {
    var s1 := OpenedForCreate(s);
    var s2 := WithDraftName(s1, name);
    var s3 := WithDraftNum(s2, number);
    var es := AddEvents(name, number);
    RunAppend(s, es[..3], SubmitPressed);
    RunAppend(s, es[..2], NumberTyped(number));
    RunAppend(s, es[..1], NameTyped(name));
    RunAppend(s, [], NewContactPressed);
    assert es[..3] + [SubmitPressed] == es;
    assert es[..2] + [NumberTyped(number)] == es[..3];
    assert es[..1] + [NameTyped(name)] == es[..2];
    assert [] + [NewContactPressed] == es[..1];
    assert Run(s, es[..3]) == s3;
  }

  /** A submit with an empty name neither changes the list nor closes the
      form: the validation alert is the only effect. */
  lemma EmptyNameIsRejected(s: ScreenState, number: string)
    requires !s.modalVisible
    ensures Run(s, AddEvents("", number)).contacts == s.contacts
    ensures Run(s, AddEvents("", number)).modalVisible
  {
    var es := AddEvents("", number);
    RunAppend(s, es[..3], SubmitPressed);
    RunAppend(s, es[..2], NumberTyped(number));
    RunAppend(s, es[..1], NameTyped(""));
    RunAppend(s, [], NewContactPressed);
    assert es[..3] + [SubmitPressed] == es;
    assert es[..2] + [NumberTyped(number)] == es[..3];
    assert es[..1] + [NameTyped("")] == es[..2];
    assert [] + [NewContactPressed] == es[..1];
  }

  /** Add "Ana Silva" with an eleven-digit number, shown formatted; edit it to
      a ten-digit number, shown as the fallback label; delete it, leaving the
      list empty again. */
  lemma AnaSilvaSession()
    ensures
      var added := Run(Initial, AddEvents("Ana Silva", "11987654321"));
      added.contacts == [Contact("Ana Silva", "11987654321")] &&
      NumberLines(added.contacts) == ["(11) 98765-4321"] &&
      var edited := Run(added, [EditPressed(0), NumberTyped("1199999999"), SubmitPressed]);
      edited.contacts == [Contact("Ana Silva", "1199999999")] &&
      NumberLines(edited.contacts) == [TooShortLabel] &&
      Run(edited, [DeleteAnswered(0, true)]).contacts == []
  {
    AddThroughForm(Initial, "Ana Silva", "11987654321");
    var added := Run(Initial, AddEvents("Ana Silva", "11987654321"));
    assert added.contacts == [Contact("Ana Silva", "11987654321")];
    FormatSamples();
    assert NumberLines(added.contacts)[0] == "(11) 98765-4321";
    var es := [EditPressed(0), NumberTyped("1199999999"), SubmitPressed];
    RunAppend(added, es[..2], SubmitPressed);
    RunAppend(added, es[..1], NumberTyped("1199999999"));
    RunAppend(added, [], EditPressed(0));
    assert es[..2] + [SubmitPressed] == es;
    assert es[..1] + [NumberTyped("1199999999")] == es[..2];
    assert [] + [EditPressed(0)] == es[..1];
    var edited := Run(added, es);
    assert edited.contacts == [Contact("Ana Silva", "1199999999")];
    assert !edited.modalVisible;
    RunAppend(edited, [], DeleteAnswered(0, true));
    assert [] + [DeleteAnswered(0, true)] == [DeleteAnswered(0, true)];
  }

  /** In every state the screen can reach, each rendered row has a
      one-character avatar label, because no empty name is ever stored. */
  lemma ReachableRowsHaveAvatar(es: seq<Event>, k: nat)
    requires k < |Run(Initial, es).contacts|
    ensures |AvatarLabel(Run(Initial, es).contacts[k].name)| == 1
  {
    ReachableIsValid(es);
    assert WellFormed(Run(Initial, es).contacts[k]);
  }

  /** The sample eleven-digit number of nines. */
  lemma FormatNines()
    ensures FormatNumber("99999999999") == "(99) 99999-9999"
  {
    var r, e := FormatNumber("99999999999"), "(99) 99999-9999";
    forall k | 0 <= k < 15
      ensures r[k] == e[k]
    {
      var n := "99999999999";
      if 1 <= k < 3 {
        assert r[k] == n[k - 1];
      } else if 5 <= k < 10 {
        assert r[k] == n[k - 3];
      } else if 11 <= k {
        assert r[k] == n[k - 4];
      }
    }
  }

  /** The sample number of the Ana Silva session. */
  lemma FormatAna()
    ensures FormatNumber("11987654321") == "(11) 98765-4321"
  {
    var r, e := FormatNumber("11987654321"), "(11) 98765-4321";
    forall k | 0 <= k < 15
      ensures r[k] == e[k]
    {
      var n := "11987654321";
      if 1 <= k < 3 {
        assert r[k] == n[k - 1];
      } else if 5 <= k < 10 {
        assert r[k] == n[k - 3];
      } else if 11 <= k {
        assert r[k] == n[k - 4];
      }
    }
  }

  /** The formatter on the sample numbers. */
  lemma FormatSamples()
    ensures FormatNumber("99999999999") == "(99) 99999-9999"
    ensures FormatNumber("11987654321") == "(11) 98765-4321"
    ensures FormatNumber("123") == TooShortLabel
    ensures FormatNumber("1199999999") == TooShortLabel
  {
    FormatNines();
    FormatAna();
  }
}
