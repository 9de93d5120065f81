/** The helpers of the script embedded in the generated page (summarize.py,
    template text): the question/answer decision for a bubble, the initials
    shown on an answer's avatar, and the `MM:SS` display of the replay time.
    `userInitials` is the normalised users map, as embedded by the page. */
module Page {
  import opened Wrappers
  import opened Text
  import opened Summarize

  /** JavaScript `x || fallback` for a looked-up string: `undefined` and the
      empty string are falsy. */
  function OrElse(x: Option<string>, fallback: string): string {
    if x.Some? && x.value != "" then x.value else fallback
  }

  /** `userInitials[key]`, `undefined` when absent. */
  function Lookup(users: map<string, string>, key: string): Option<string> {
    if key in users then Some(users[key]) else None
  }

  const DefaultKey: string := "default"
  const FallbackInitials: string := "BG"

  /** `messageType.match(/^a(\d+)/i)`: the digits after a leading `a` or `A`,
      taken as far as they go, or no match. */
  function AnswerDigits(kind: string): (r: Option<string>)
    ensures r.Some? ==> r.value != [] && AllDigits(r.value)
    ensures r.Some? ==> |kind| > |r.value| && (kind[0] == 'a' || kind[0] == 'A')
                        && kind[1..|r.value| + 1] == r.value
                        && (|kind| == |r.value| + 1 || !IsDigit(kind[|r.value| + 1]))
    ensures r.None? <==> !(|kind| >= 2 && (kind[0] == 'a' || kind[0] == 'A') && IsDigit(kind[1]))
  {
    if |kind| >= 2 && (kind[0] == 'a' || kind[0] == 'A') && IsDigit(kind[1]) then
      Some(kind[1..DigitsEnd(kind, 1)])
    else
      None
  }

  /** `getInitialsForAnswer(messageType)`. */
  function InitialsForAnswer(kind: string, users: map<string, string>): (r: string)
    ensures r != []
    ensures r == FallbackInitials || r in users.Values
  {
    match AnswerDigits(kind)
    case None => OrElse(Lookup(users, DefaultKey), FallbackInitials)
    case Some(digits) => OrElse(Lookup(users, digits), OrElse(Lookup(users, DefaultKey), FallbackInitials))
  }

  /** `userInitials[key]` is present and not empty. */
  predicate Usable(users: map<string, string>, key: string) {
    key in users && users[key] != ""
  }

  /** The answer's own entry is usable. */
  predicate OwnEntryUsable(kind: string, users: map<string, string>) {
    AnswerDigits(kind).Some? && Usable(users, AnswerDigits(kind).value)
  }

  /** The two-level fallback: the entry for the answer's number when it is
      non-empty, else the non-empty `default`, else `BG`; a type without digits
      goes straight to the default. */
  lemma InitialsFallback(kind: string, users: map<string, string>)
    ensures OwnEntryUsable(kind, users) ==> InitialsForAnswer(kind, users) == users[AnswerDigits(kind).value]
    ensures !OwnEntryUsable(kind, users) && Usable(users, DefaultKey) ==> InitialsForAnswer(kind, users) == users[DefaultKey]
    ensures !OwnEntryUsable(kind, users) && !Usable(users, DefaultKey) ==> InitialsForAnswer(kind, users) == FallbackInitials
  {
  }

  /** An answer numbered `n` whose YAML `users` entry for the integer key `n`
      (the last such entry) has a non-empty value shows that value. */
  lemma InitialsFromYamlKey(n: nat, entries: seq<(Scalar, Scalar)>, i: nat)
    requires i < |entries| && entries[i].0 == Int(n) && PyStr(entries[i].1) != ""
    requires forall j :: i < j < |entries| ==> PyStr(entries[j].0) != PyStr(entries[i].0)
    ensures InitialsForAnswer("A" + NatToString(n), NormalizeUsers(entries)) == PyStr(entries[i].1)
  {
    var digits := NatToString(n);
    var kind := "A" + digits;
    assert kind[1..|digits| + 1] == digits;
    DigitsEndExact(kind, 1, |kind|);
    assert kind[1] == digits[0];
    NormalizeUsersSpec(entries, i);
  }

  /** With entries for answerer `1` and for `default`: `A1` shows its own
      initials, `A7` (no entry) and a bare `A` show the default. */
  lemma InitialsExample()
    ensures var users := map["1" := "AB", "default" := "XY"];
      && InitialsForAnswer("A1", users) == "AB"
      && InitialsForAnswer("A7", users) == "XY"
      && InitialsForAnswer("A", users) == "XY"
  {
    var users := map["1" := "AB", "default" := "XY"];
    DigitsEndExact("A1", 1, 2);
    DigitsEndExact("A7", 1, 2);
    assert "A1"[1..2] == "1";
    assert "A7"[1..2] == "7";
    assert "7" != "1" && "7" != "default";
  }

  // ---------------------------------------------------------------------------
  // buildMessageElement: which side a bubble goes, logo or avatar.

  /** The parts of a bubble the script decides on. */
  datatype Bubble = Bubble(className: string, hasLogo: bool, avatar: Option<string>, text: string)

  /** `type.toLowerCase().startsWith(c)` for a lower-case ASCII letter `c`. */
  predicate StartsWithIgnoringCase(kind: string, lower: char, upper: char) {
    |kind| >= 1 && (kind[0] == lower || kind[0] == upper)
  }

  function BuildMessageElement(m: Message, users: map<string, string>): Bubble {
    var isQuestion := StartsWithIgnoringCase(m.kind, 'q', 'Q');
    Bubble(
      if isQuestion then "message question" else "message answer",
      isQuestion,
      if StartsWithIgnoringCase(m.kind, 'a', 'A') then Some(InitialsForAnswer(m.kind, users)) else None,
      m.text)
  }

  /** A classified message is a question bubble with the logo exactly when its
      type starts with `Q`, and otherwise an answer bubble with a non-empty
      avatar label: never both, never neither; its text is the message text. */
  lemma BubbleForMessage(m: Message, users: map<string, string>)
    requires IsMessageType(m.kind)
    ensures var b := BuildMessageElement(m, users);
      && (b.className == "message question" <==> m.kind[0] == 'Q')
      && (b.className == "message answer" <==> m.kind[0] == 'A')
      && b.hasLogo == (m.kind[0] == 'Q')
      && b.avatar.Some? == !b.hasLogo
      && (b.avatar.Some? ==> b.avatar.value == InitialsForAnswer(m.kind, users) && b.avatar.value != "")
      && b.text == m.text
  {
  }

  // ---------------------------------------------------------------------------
  // formatDuration, on the whole number of seconds `Math.round` produced.

  /** JavaScript's `a % b`, whose result takes the sign of `a`. */
  function JsRemainder(a: int, b: int): (r: int)
    requires b > 0
  {
    if a >= 0 then a % b else -((-a) % b)
  }

  /** JavaScript's remainder is below the divisor in magnitude, has the sign
      of the dividend, and leaves a multiple of the divisor: the one whose
      quotient is truncated toward zero. */
  lemma JsRemainderSpec(a: int, b: int)
    requires b > 0
    ensures var r := JsRemainder(a, b);
      && -b < r < b && (a >= 0 ==> r >= 0) && (a < 0 ==> r <= 0)
      && exists q: int :: a == q * b + r && (a >= 0 ==> q >= 0) && (a < 0 ==> q <= 0)
  {
    var r := JsRemainder(a, b);
    var q := if a >= 0 then a / b else -((-a) / b);
    assert a == q * b + r;
  }

  /** `${String(Math.floor(t / 60)).padStart(2, '0')}:${String(t % 60).padStart(2, '0')}` */
  function FormatDuration(totalSeconds: int): string {
    var minutes := PadStart(IntToString(totalSeconds / 60), 2, '0');
    var seconds := PadStart(IntToString(JsRemainder(totalSeconds, 60)), 2, '0');
    minutes + ":" + seconds
  }

  /** A padded numeral reads back as the number. */
  lemma PaddedNumeral(n: nat)
    ensures var s := PadStart(NatToString(n), 2, '0');
      |s| >= 2 && AllDigits(s) && ParseNat(s) == n && (|s| > 2 ==> s[0] != '0')
  {
    var t := NatToString(n);
    ParseNatToString(n);
    ParseNatLeadingZeros(|PadStart(t, 2, '0')| - |t|, t);
  }

  /** A number of seconds below a minute pads to exactly two characters. */
  lemma SecondsWidth(n: nat)
    requires n < 60
    ensures |PadStart(NatToString(n), 2, '0')| == 2
  {
    if n >= 10 {
      assert NatToString(n) == NatToString(n / 10) + [DigitChar(n % 10)];
    }
  }

  /** `r` is `MM:SS` whose fields read as `q` minutes and `m` seconds: both
      fields are digits, seconds exactly two of them, minutes at least two
      without a superfluous leading zero. */
  predicate ReadsAsClock(r: string, q: nat, m: nat) {
    && |r| >= 5 && r[|r| - 3] == ':'
    && var mm, ss := r[..|r| - 3], r[|r| - 2..];
    && AllDigits(mm) && AllDigits(ss) && |mm| >= 2 && (|mm| > 2 ==> mm[0] != '0')
    && ParseNat(mm) == q && ParseNat(ss) == m
  }

  /** Joining two such fields around a colon gives a clock reading. */
  lemma ColonJoin(mm: string, ss: string, q: nat, m: nat)
    requires AllDigits(mm) && AllDigits(ss) && |mm| >= 2 && |ss| == 2 && (|mm| > 2 ==> mm[0] != '0')
    requires ParseNat(mm) == q && ParseNat(ss) == m
    ensures ReadsAsClock(mm + ":" + ss, q, m)
  {
    var r := mm + ":" + ss;
    assert r[..|r| - 3] == mm;
    assert r[|r| - 2..] == ss;
  }

  /** Minutes and seconds below 60, padded and joined, read back as the two
      numbers. */
  lemma ClockFields(q: nat, m: nat)
    requires m < 60
    ensures ReadsAsClock(PadStart(NatToString(q), 2, '0') + ":" + PadStart(NatToString(m), 2, '0'), q, m)
  {
    PaddedNumeral(q);
    PaddedNumeral(m);
    SecondsWidth(m);
    ColonJoin(PadStart(NatToString(q), 2, '0'), PadStart(NatToString(m), 2, '0'), q, m);
  }

  /** For an elapsed time the result is `MM:SS`: two digits of seconds below
      60, at least two digits of minutes without superfluous zeros, and
      minutes * 60 + seconds gives back the time. */
  lemma FormatDurationSpec(totalSeconds: int)
    requires totalSeconds >= 0
    ensures exists q: nat, m: nat :: m < 60 && q * 60 + m == totalSeconds && ReadsAsClock(FormatDuration(totalSeconds), q, m)
  {
    var q, m := totalSeconds / 60, totalSeconds % 60;
    assert FormatDuration(totalSeconds) == PadStart(NatToString(q), 2, '0') + ":" + PadStart(NatToString(m), 2, '0');
    ClockFields(q, m);
  }

  /** A minute and a quarter shows as `01:15`. */
  lemma FormatDurationExample()
    ensures FormatDuration(75) == "01:15"
  {
    assert NatToString(15) == NatToString(1) + [DigitChar(5)];
  }

  /** A negative time, which the replay never produces, keeps JavaScript's
      signs: floor division for the minutes, a remainder with the sign of the
      time for the seconds. */
  lemma FormatDurationNegative()
    ensures FormatDuration(-5) == "-1:-5"
  {
  }
}
