# MyContacts home screen, modelled in Dafny

The app is a single-screen contact book. The screen holds an ordered list of
contacts (name and phone number) in memory. A modal form with two draft buffers
creates a contact or edits one, and a confirmation dialog guards each delete.
Every row shows the name, an avatar made from the name's first character, and
the number. The number is shown as `(AA) BBBBB-CCCC` when it has more than ten
characters, and as the label "Numerinho pequeno" otherwise.

This project models that decision logic:

- `display.dfy` (module `Display`): the phone-number formatter and the avatar
  label, as pure functions, with lemmas. The lemmas show that the formatted
  string keeps the first eleven characters, that the tail is dropped, and that
  the fallback label appears exactly for short numbers.
- `home_screen.dfy` (module `HomeScreen`):
  - the five pieces of screen state as the datatype `ScreenState`;
  - one pure transition function per handler, whose contract states what the
    handler promises;
  - the remove-by-index filter as `Without`, proved to remove exactly one entry;
  - the screen as a state machine over user events (`Enabled`, `Step`, `Run`),
    with lemmas proving that every reachable state keeps the screen invariant;
  - the class `Screen`, which holds the same state in mutable fields. Its
    methods mirror the handlers' step-by-step updates. Each method's
    postcondition equates the new state with the transition applied to the old
    state.
- `scenarios.dfy` (module `Scenarios`): whole sessions as lemmas. They cover
  adding through the form, a rejected empty name, the add/edit/delete session
  for "Ana Silva", and the avatar label of every reachable row.

The screen invariant (`HomeScreen.Valid`) has two parts:

- every stored contact has a non-empty name and a non-empty number;
- while the form is open, the pending edit index, if any, names an existing
  entry.

The second part is why a submit never writes past the end of the list. The
invariant only constrains the pending edit while the form is open. Cancel keeps
the index, and a later delete can leave it stale. The next open always
overwrites it.

Cancel (`app/index.js:182`, `:154`) only hides the form; `Cancelled` keeps the
drafts and the pending edit, and both open handlers reset them.

## Model

| member | source | states |
|---|---|---|
| `Display.FormatNumber` | app/index.js:105-110 | more than 10 characters: a 15-character string `(`, chars 0-1, `) `, chars 2-6, `-`, chars 7-10; otherwise exactly the fallback label |
| `Display.FormatKeepsFirstEleven` | app/index.js:105-110 | the eleven leading characters can be read back from the formatted string (round trip through `DigitsOf`) |
| `Display.FormatIgnoresTail` | app/index.js:106-109 | characters after the eleventh do not affect the display string |
| `Display.FallbackExactlyWhenShort` | app/index.js:105-110 | the fallback label appears if and only if the number has at most 10 characters (10 included) |
| `Display.FormatInjectiveOnElevenDigits` | app/index.js:105-110 | two eleven-character numbers with the same display string are equal |
| `Display.AvatarLabel` | app/index.js:100 | the label is a prefix of the name of length at most 1, and has length 1 exactly when the name is non-empty |
| `HomeScreen.WithoutOutside` | app/index.js:63 | filtering out a position outside the list keeps the list unchanged |
| `HomeScreen.WithoutRemovesOne` | app/index.js:63 | filtering out a valid position `i` yields `cs[..i] + cs[i+1..]` |
| `HomeScreen.RemovalAt` | app/index.js:63 | after removal at valid `i`: length drops by one, entries before `i` are unchanged, entries after `i` shift left by one, and the removed entry is the only one lost (multiset) |
| `HomeScreen.RemovalSplit` | app/index.js:63 | the list's multiset is the remaining entries plus the removed one |
| `HomeScreen.OpenedForCreate` | app/index.js:83-88 | drafts cleared, no pending edit, form open, list unchanged |
| `HomeScreen.OpenedForEdit` | app/index.js:72-77 | drafts equal entry `i`, pending edit is `i`, form open, list unchanged |
| `HomeScreen.WithDraftName` | app/index.js:166 | the name draft becomes the typed text and nothing else changes |
| `HomeScreen.WithDraftNum` | app/index.js:172 | the number draft becomes the typed text and nothing else changes |
| `HomeScreen.Cancelled` | app/index.js:182 | the form is closed and nothing else changes (drafts and pending edit kept) |
| `HomeScreen.Submitted` | app/index.js:24-50 | an empty draft changes nothing; in create mode it appends exactly the draft, keeping earlier entries; in edit mode it replaces only the pending entry, keeping length and all other entries; after success the drafts are empty, the form is closed and there is no pending edit |
| `HomeScreen.Deleted` | app/index.js:53-68 | a cancelled delete changes nothing; a confirmed one removes exactly entry `i` (`cs[..i] + cs[i+1..]`); the form state is untouched |
| `HomeScreen.SubmitKeepsWellFormed` | app/index.js:25-45 | after a submit, every stored contact still has a non-empty name and number |
| `HomeScreen.DeleteKeepsWellFormed` | app/index.js:62-64 | after a delete, every remaining contact still has a non-empty name and number |
| `HomeScreen.EditThenCancelKeepsList` | app/index.js:72-77 | opening an edit and cancelling it leaves the list identical and the form closed |
| `HomeScreen.EditUnchangedSubmitKeepsList` | app/index.js:36-45 | submitting an opened entry without changing it gives back the same list |
| `HomeScreen.StepKeepsValid` | app/index.js:24-88 | every handler, run on an event the screen can deliver, preserves the screen invariant |
| `HomeScreen.RunKeepsValid` | app/index.js:17-21 | any sequence of user events from a valid state ends in a valid state |
| `HomeScreen.ReachableIsValid` | app/index.js:17-21 | every state reachable from the freshly mounted screen is valid |
| `HomeScreen.Screen.constructor` | app/index.js:17-21 | the mounted screen has an empty list, a closed form, empty drafts and no pending edit, and satisfies the screen invariant |
| `HomeScreen.Screen.OpenCreate` | app/index.js:83-88 | the new state is `OpenedForCreate` of the old; the screen invariant is kept |
| `HomeScreen.Screen.OpenEdit` | app/index.js:72-77 | the new state is `OpenedForEdit` of the old, for a rendered index; the screen invariant is kept |
| `HomeScreen.Screen.SetDraftName` | app/index.js:166 | the new state is `WithDraftName` of the old; the screen invariant is kept |
| `HomeScreen.Screen.SetDraftNum` | app/index.js:172 | the new state is `WithDraftNum` of the old; the screen invariant is kept |
| `HomeScreen.Screen.Cancel` | app/index.js:154 | the new state is `Cancelled` of the old (the close request; the cancel button does the same); the screen invariant is kept |
| `HomeScreen.Screen.Submit` | app/index.js:24-50 | `ok` is false exactly when a draft is empty (the validation alert); the new state is `Submitted` of the old; the edit path writes into a copied array; the screen invariant is kept |
| `HomeScreen.Screen.Delete` | app/index.js:53-68 | the new state is `Deleted` of the old for the dialog's answer; stored contacts stay well formed, and the whole invariant is kept when the form is closed (the only case the screen allows) |
| `Scenarios.DeleteDropsLine` | app/index.js:62-64 | after a confirmed delete at `i`, the rendered number lines are the old ones without line `i`, in the same order |
| `Scenarios.SubmitAddsLine` | app/index.js:30-35 | a successful create-mode submit adds exactly one rendered line at the end, the formatted draft number |
| `Scenarios.SubmitReplacesLine` | app/index.js:36-45 | a successful edit-mode submit changes only the edited row's rendered line, to the formatted draft number |
| `Scenarios.RunAppend` | app/index.js:24-88 | running events one more event at a time gives the same state as running them all |
| `Scenarios.AddThroughForm` | app/index.js:30-35 | new contact, type, submit on a closed screen appends exactly the typed contact and closes the form, whatever the previous session left behind |
| `Scenarios.EmptyNameIsRejected` | app/index.js:25-28 | submitting with an empty name leaves the list unchanged and the form open |
| `Scenarios.AnaSilvaSession` | app/index.js:24-68 | add with 11 digits shows `(11) 98765-4321`; editing to 10 digits shows the fallback label; a confirmed delete empties the list |
| `Scenarios.ReachableRowsHaveAvatar` | app/index.js:100 | in every reachable state each row's avatar label has exactly one character |
| `Scenarios.FormatSamples` | app/index.js:105-110 | `"99999999999"` becomes `"(99) 99999-9999"` and `"11987654321"` becomes `"(11) 98765-4321"`; `"123"` and the 10-digit `"1199999999"` give the fallback label |

## Left out

- Rendering is not modelled: `View`, `FlatList`, `Modal`, `TextInput`, `Pressable`, the paper widgets and the style sheet. It is presentation only. Its one effect on behaviour is that the modal backdrop covers the list, and `HomeScreen.Enabled` captures that.
- The text of the alert dialogs is not modelled. The validation alert is `Submit` returning `false`. The delete dialog is the `confirmed` parameter of `Delete`; its message reads `contacts[index].name`, so `Delete` requires a valid index.
- `useState` batching and closure capture are not modelled. Each handler is one atomic update of the five fields.
- `keyExtractor` is not modelled. It only turns the index into a widget key.
- Submit in edit mode with a pending index at or past the end of the list is excluded by `requires`. In JavaScript, an index equal to the list's length makes `updatedContacts[editIndex] = …` append a new entry; a larger index leaves holes (a sparse array). The UI only sets the index from a rendered row, and `HomeScreen.ReachableIsValid` proves the index is below the length whenever the form is open.
- String lengths and slices count Dafny characters. JavaScript counts UTF-16 code units, so a number typed with characters outside the Basic Multilingual Plane could be measured differently. The number field uses a numeric keyboard.
- The avatar's `item.image` alternative is not modelled. Stored contacts only ever have `name` and `number`, so the label always comes from the name.
