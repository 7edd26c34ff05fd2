/**
 The text of the change message recorded when a change is abandoned:
 "Patch Set <n>: Abandoned", followed by a blank line and the caller's note
 when there is a non-empty one. `ParseAbandonText` reads such a text back.
 */
module AbandonMessage {
  import opened Wrappers
  import Decimal

  const Prefix := "Patch Set "
  const Marker := ": Abandoned"
  const Separator := "\n\n"

  /** The note as it ends up in the text: a null note and an empty one both leave none. */
  function NoteOf(message: Option<string>): string {
    if message.Some? then message.value else ""
  }

  /** The first line of the text, naming the patch set. */
  function Headline(patchSetNumber: int): string {
    Prefix + Decimal.IntToString(patchSetNumber) + Marker
  }

  function AbandonText(patchSetNumber: int, message: Option<string>): (t: string)
    ensures Headline(patchSetNumber) <= t
    ensures |t| > |Headline(patchSetNumber)| <==> message.Some? && |message.value| > 0
    ensures t == Headline(patchSetNumber) || t == Headline(patchSetNumber) + Separator + NoteOf(message)
  {
    var head := Headline(patchSetNumber);
    if message.Some? && |message.value| > 0 then head + Separator + message.value else head
  }

  /** The position of the first ':' in `s`, or `|s|` when there is none. */
  function IndexOfColon(s: string): (k: nat)
    ensures k <= |s|
    ensures forall i :: 0 <= i < k ==> s[i] != ':'
    ensures k < |s| ==> s[k] == ':'
    decreases |s|
  {
    if |s| == 0 then 0
    else if s[0] == ':' then 0
    else 1 + IndexOfColon(s[1..])
  }

  /** Splits an abandon text into its patch set number and its note. */
  function ParseAbandonText(t: string): Option<(int, string)> {
    if !(Prefix <= t) then None
    else
      var rest := t[|Prefix|..];
      var k := IndexOfColon(rest);
      var number := Decimal.ParseInt(rest[..k]);
      var after := rest[k..];
      if number.None? || !(Marker <= after) then None
      else
        var tail := after[|Marker|..];
        if tail == "" then Some((number.value, ""))
        else if Separator <= tail && |tail| > |Separator| then Some((number.value, tail[|Separator|..]))
        else None
  }

  lemma {:induction false} IndexOfColonAfter(a: string, b: string)
    requires forall i :: 0 <= i < |a| ==> a[i] != ':'
    requires |b| > 0 && b[0] == ':'
    ensures IndexOfColon(a + b) == |a|
    decreases |a|
  {
    if |a| > 0 {
      assert (a + b)[1..] == a[1..] + b;
      IndexOfColonAfter(a[1..], b);
    } else {
      assert a + b == b;
    }
  }

  /** The text loses nothing: the patch set number and the note can be read back. */
  lemma AbandonTextRoundTrip(patchSetNumber: int, message: Option<string>)
    ensures ParseAbandonText(AbandonText(patchSetNumber, message)) == Some((patchSetNumber, NoteOf(message)))
  {
    var t := AbandonText(patchSetNumber, message);
    var digits := Decimal.IntToString(patchSetNumber);
    var suffix := t[|Headline(patchSetNumber)|..];
    assert t == Prefix + digits + Marker + suffix;
    var rest := t[|Prefix|..];
    assert rest == digits + (Marker + suffix);
    IndexOfColonAfter(digits, Marker + suffix);
    assert rest[..|digits|] == digits;
    Decimal.ParseIntToString(patchSetNumber);
    assert rest[|digits|..] == Marker + suffix;
    assert (Marker + suffix)[|Marker|..] == suffix;
  }

  /** Two abandon texts are equal only for the same patch set and the same note. */
  lemma AbandonTextInjective(n1: int, m1: Option<string>, n2: int, m2: Option<string>)
    requires AbandonText(n1, m1) == AbandonText(n2, m2)
    ensures n1 == n2 && NoteOf(m1) == NoteOf(m2)
  {
    AbandonTextRoundTrip(n1, m1);
    AbandonTextRoundTrip(n2, m2);
  }

  /** The text for patch set 3 with the note "not needed". */
  lemma AbandonTextExample()
    ensures AbandonText(3, Some("not needed")) == "Patch Set 3: Abandoned\n\nnot needed"
    ensures AbandonText(3, Some("")) == "Patch Set 3: Abandoned"
    ensures AbandonText(3, None) == "Patch Set 3: Abandoned"
  {
    assert Decimal.IntToString(3) == "3";
  }
}
