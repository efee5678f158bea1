/** How one contact row of the list renders: the phone-number line and the
    avatar label. Both are pure expressions over string slices. */
module Display {

  /** The label shown instead of a number that has ten characters or fewer. */
  const TooShortLabel: string := "Numerinho pequeno"

  /** Length a number must exceed before it is formatted. */
  const MinFormattedLength: nat := 10

  /** The display string of a phone number: `(AA) BBBBB-CCCC` built from the
      first eleven characters when the number has more than ten, the fixed
      fallback label otherwise. Characters past the eleventh are dropped. */
  function FormatNumber(number: string): (r: string)
    ensures |number| > MinFormattedLength ==>
      |r| == 15 && r[0] == '(' && r[3] == ')' && r[4] == ' ' && r[10] == '-'
    ensures |number| > MinFormattedLength ==>
      (forall k :: 0 <= k < 2 ==> r[1 + k] == number[k]) &&
      (forall k :: 2 <= k < 7 ==> r[3 + k] == number[k]) &&
      (forall k :: 7 <= k < 11 ==> r[4 + k] == number[k])
    ensures |number| <= MinFormattedLength ==> r == TooShortLabel
  {
    if |number| > MinFormattedLength then
      "(" + number[0..2] + ") " + number[2..7] + "-" + number[7..11]
    else
      TooShortLabel
  }

  /** Reads the eleven digits back out of a formatted display string. */
  function DigitsOf(formatted: string): string
    requires |formatted| == 15
  {
    formatted[1..3] + formatted[5..10] + formatted[11..15]
  }

  /** Formatting loses nothing of the first eleven characters: they can be
      read back from the display string. */
  lemma FormatKeepsFirstEleven(number: string)
    requires |number| > MinFormattedLength
    ensures |FormatNumber(number)| == 15
    ensures DigitsOf(FormatNumber(number)) == number[..11]
  {
  }

  /** Only the first eleven characters matter: the rest is dropped silently. */
  lemma FormatIgnoresTail(number: string, tail: string)
    requires |number| == 11
    ensures FormatNumber(number + tail) == FormatNumber(number)
  {
  }

  /** The fallback label is shown exactly for numbers of ten characters or
      fewer; no formatted number can be mistaken for it. */
  lemma FallbackExactlyWhenShort(number: string)
    ensures FormatNumber(number) == TooShortLabel <==> |number| <= MinFormattedLength
  {
  }

  /** Different eleven-character numbers give different display strings. */
  lemma FormatInjectiveOnElevenDigits(a: string, b: string)
    requires |a| == 11 && |b| == 11
    requires FormatNumber(a) == FormatNumber(b)
    ensures a == b
  {
  }

  /** The avatar label: the first character of the name, or nothing when the
      name is empty. (Contacts never carry an `image`, so the name is always
      the source of the label.) */
  function AvatarLabel(name: string): (r: string)
    ensures |r| <= 1
    ensures r <= name
    ensures |r| == 1 <==> name != []
  {
    if |name| < 1 then name else name[..1]
  }
}
