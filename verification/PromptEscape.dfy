/**
 promptSafeText of packages/shared/src/session.ts: JSON.stringify without its quotes, with the
 three markup characters escaped as well, and the JSON string decoder that undoes it.
 */
module PromptEscape {
  import opened Common
  import opened Utf16

  const QUOTE: Unit := 0x22
  const AMPERSAND: Unit := 0x26
  const LESS: Unit := 0x3C
  const GREATER: Unit := 0x3E
  const LOWER_U: Unit := 0x75

  // ---------------------------------------------------------------- JSON.stringify

  function HexDigit(d: nat): Unit
    requires d < 16
  {
    if d < 10 then 0x30 + d else 0x61 + (d - 10)
  }

  /** The four lower-case digits of a code unit. */
  function Hex(u: Unit): Text {
    var upper := u / 16;
    var top := upper / 16;
    [HexDigit(top / 16), HexDigit(top % 16), HexDigit(upper % 16), HexDigit(u % 16)]
  }

  function UnicodeEscape(u: Unit): Text {
    [BACKSLASH, LOWER_U] + Hex(u)
  }

  /** The letter of a two-character escape: b, t, n, f, r, the quote and the backslash. */
  function ShortEscape(u: Unit): Option<Unit> {
    match u
    case 0x08 => Some(0x62)
    case 0x09 => Some(0x74)
    case 0x0A => Some(0x6E)
    case 0x0C => Some(0x66)
    case 0x0D => Some(0x72)
    case 0x22 => Some(QUOTE)
    case 0x5C => Some(BACKSLASH)
    case _ => None
  }

  /** A code unit that is not half of a surrogate pair. */
  function EscapeUnit(u: Unit): Text {
    var short := ShortEscape(u);
    if short.Some? then [BACKSLASH, short.value]
    else if u < 0x20 || High(u) || Low(u) then UnicodeEscape(u)
    else [u]
  }

  predicate StartsWithPair(t: Text) {
    |t| >= 2 && High(t[0]) && Low(t[1])
  }

  /** JSON.stringify without the outer quotes; lone surrogates are escaped, pairs are kept. */
  function Stringify(t: Text): Text
    decreases |t|
  {
    if t == [] then []
    else if StartsWithPair(t) then [t[0], t[1]] + Stringify(t[2..])
    else EscapeUnit(t[0]) + Stringify(t[1..])
  }

  /** String.prototype.replaceAll of one code unit by its escape. */
  function ReplaceAll(t: Text, u: Unit): Text
    decreases |t|
  {
    if t == [] then []
    else (if t[0] == u then UnicodeEscape(u) else [t[0]]) + ReplaceAll(t[1..], u)
  }

  function PromptSafeText(t: Text): Text {
    ReplaceAll(ReplaceAll(ReplaceAll(Stringify(t), AMPERSAND), LESS), GREATER)
  }

  // ---------------------------------------------------------------- section 7 of RFC 8259

  function HexValue(u: Unit): Option<nat> {
    if 0x30 <= u <= 0x39 then Some(u - 0x30)
    else if 0x61 <= u <= 0x66 then Some(u - 0x61 + 10)
    else if 0x41 <= u <= 0x46 then Some(u - 0x41 + 10)
    else None
  }

  /** The code unit four hexadecimal digits stand for. */
  function HexUnit(t: Text): Option<Unit>
    requires |t| == 4
  {
    var a, b, c, d := HexValue(t[0]), HexValue(t[1]), HexValue(t[2]), HexValue(t[3]);
    if a.Some? && b.Some? && c.Some? && d.Some? && a.value < 16 && b.value < 16 && c.value < 16 && d.value < 16 then
      Some(((a.value * 16 + b.value) * 16 + c.value) * 16 + d.value)
    else None
  }

  /** The meaning of a two-character escape. */
  function ShortMeaning(letter: Unit): Option<Unit> {
    match letter
    case 0x62 => Some(0x08)
    case 0x74 => Some(0x09)
    case 0x6E => Some(0x0A)
    case 0x66 => Some(0x0C)
    case 0x72 => Some(0x0D)
    case 0x22 => Some(QUOTE)
    case 0x5C => Some(BACKSLASH)
    case 0x2F => Some(SLASH)
    case _ => None
  }

  /** The first character of a string body and how much of it that takes. */
  function DecodeFirst(t: Text): (r: Option<(Unit, nat)>)
    requires t != []
    ensures r.Some? ==> 0 < r.value.1 <= |t|
  {
    if t[0] != BACKSLASH then
      if t[0] < 0x20 || t[0] == QUOTE then None else Some((t[0], 1))
    else if |t| >= 2 && t[1] == LOWER_U then
      if |t| >= 6 && HexUnit(t[2..6]).Some? then Some((HexUnit(t[2..6]).value, 6)) else None
    else if |t| >= 2 && ShortMeaning(t[1]).Some? then Some((ShortMeaning(t[1]).value, 2))
    else None
  }

  /** Decodes the body of a JSON string; None if it is not one. */
  function Decode(t: Text): Option<Text>
    decreases |t|
  {
    if t == [] then Some([])
    else
      var first := DecodeFirst(t);
      if first.None? then None
      else
        var rest := Decode(t[first.value.1..]);
        if rest.None? then None else Some([first.value.0] + rest.value)
  }

  lemma DecodeStep(head: Text, u: Unit, tail: Text)
    requires head != [] && DecodeFirst(head + tail) == Some((u, |head|))
    ensures Decode(head + tail) == match Decode(tail) case Some(rest) => Some([u] + rest) case None => None
  {
  }

  lemma HexRoundTrip(u: Unit)
    ensures HexUnit(Hex(u)) == Some(u)
  {
    var upper := u / 16;
    var top := upper / 16;
    DigitRoundTrip(top / 16);
    DigitRoundTrip(top % 16);
    DigitRoundTrip(upper % 16);
    DigitRoundTrip(u % 16);
  }

  lemma DigitRoundTrip(d: nat)
    requires d < 16
    ensures HexValue(HexDigit(d)) == Some(d)
  {
  }

  lemma UnicodeEscapeDecodes(u: Unit, tail: Text)
    ensures DecodeFirst(UnicodeEscape(u) + tail) == Some((u, 6))
  {
    var t := UnicodeEscape(u) + tail;
    assert t[2..6] == Hex(u);
    HexRoundTrip(u);
  }

  lemma EscapeUnitDecodes(u: Unit, tail: Text)
    ensures DecodeFirst(EscapeUnit(u) + tail) == Some((u, |EscapeUnit(u)|))
  {
    if ShortEscape(u).None? && (u < 0x20 || High(u) || Low(u)) {
      UnicodeEscapeDecodes(u, tail);
    }
  }

  lemma SurrogateDecodes(u: Unit, tail: Text)
    requires High(u) || Low(u)
    ensures DecodeFirst([u] + tail) == Some((u, 1))
  {
  }

  lemma NothingDecodes()
    ensures Decode([]) == Some([])
  {
  }

  lemma {:induction false} StringifyDecodes(t: Text)
    ensures Decode(Stringify(t)) == Some(t)
    decreases |t|
  {
    hide Decode, DecodeFirst, EscapeUnit;
    if t == [] {
      NothingDecodes();
    } else if StartsWithPair(t) {
      StringifyDecodes(t[2..]);
      var tail := Stringify(t[2..]);
      assert [t[0], t[1]] + tail == [t[0]] + ([t[1]] + tail);
      SurrogateDecodes(t[1], tail);
      SurrogateDecodes(t[0], [t[1]] + tail);
      DecodeStep([t[1]], t[1], tail);
      DecodeStep([t[0]], t[0], [t[1]] + tail);
      assert t == [t[0]] + ([t[1]] + t[2..]);
    } else {
      StringifyDecodes(t[1..]);
      EscapeUnitDecodes(t[0], Stringify(t[1..]));
      EscapeUnitIsSome(t[0]);
      DecodeStep(EscapeUnit(t[0]), t[0], Stringify(t[1..]));
      assert t == [t[0]] + t[1..];
    }
  }

  lemma EscapeUnitIsSome(u: Unit)
    ensures EscapeUnit(u) != []
  {
  }

  /** Characters that mean themselves in a string body and take no part in any escape. */
  predicate Plain(u: Unit) {
    u == AMPERSAND || u == LESS || u == GREATER
  }

  lemma {:induction false} ReplaceAllConcat(a: Text, b: Text, u: Unit)
    ensures ReplaceAll(a + b, u) == ReplaceAll(a, u) + ReplaceAll(b, u)
    decreases |a|
  {
    if a == [] {
      assert a + b == b;
    } else {
      assert (a + b)[1..] == a[1..] + b;
      ReplaceAllConcat(a[1..], b, u);
    }
  }

  lemma {:induction false} ReplaceAllWithout(a: Text, u: Unit)
    requires u !in a
    ensures ReplaceAll(a, u) == a
    decreases |a|
  {
    if a != [] {
      ReplaceAllWithout(a[1..], u);
    }
  }

  /** Nothing that starts with a backslash and decodes holds a plain character in its escape. */
  lemma EscapesHoldNoPlain(t: Text, u: Unit)
    requires t != [] && t[0] == BACKSLASH && DecodeFirst(t).Some? && Plain(u)
    ensures u !in t[..DecodeFirst(t).value.1]
  {
  }

  /** Escaping a plain character in a string body does not change what the body means. */
  lemma {:induction false} ReplaceAllKeepsMeaning(t: Text, u: Unit)
    requires Plain(u) && Decode(t).Some?
    ensures Decode(ReplaceAll(t, u)) == Decode(t)
    decreases |t|
  {
    if t != [] {
      var (value, n) := DecodeFirst(t).value;
      var head, tail := t[..n], t[n..];
      assert t == head + tail;
      ReplaceAllKeepsMeaning(tail, u);
      ReplaceAllConcat(head, tail, u);
      if t[0] == u {
        assert head == [u] && value == u;
        assert ReplaceAll(head, u) == UnicodeEscape(u) by {
          assert head[1..] == [];
        }
        UnicodeEscapeDecodes(u, ReplaceAll(tail, u));
        DecodeStep(UnicodeEscape(u), u, ReplaceAll(tail, u));
      } else {
        KeptHead(t, u);
        DecodeStep(head, value, ReplaceAll(tail, u));
      }
    }
  }

  lemma KeptHead(t: Text, u: Unit)
    requires Plain(u) && t != [] && DecodeFirst(t).Some? && t[0] != u
    ensures var (value, n) := DecodeFirst(t).value;
            ReplaceAll(t[..n], u) == t[..n]
            && DecodeFirst(t[..n] + ReplaceAll(t[n..], u)) == Some((value, n))
  {
    var (value, n) := DecodeFirst(t).value;
    var head, other := t[..n], t[..n] + ReplaceAll(t[n..], u);
    if t[0] == BACKSLASH {
      EscapesHoldNoPlain(t, u);
      if t[1] == LOWER_U {
        assert other[2..6] == t[2..6];
      }
    } else {
      assert head == [t[0]];
    }
    ReplaceAllWithout(head, u);
  }

  /** Reversible: decoding the escaped text as a JSON string body gives the original. */
  lemma PromptSafeTextRoundTrips(t: Text)
    ensures Decode(PromptSafeText(t)) == Some(t)
  {
    var s := Stringify(t);
    StringifyDecodes(t);
    ReplaceAllKeepsMeaning(s, AMPERSAND);
    ReplaceAllKeepsMeaning(ReplaceAll(s, AMPERSAND), LESS);
    ReplaceAllKeepsMeaning(ReplaceAll(ReplaceAll(s, AMPERSAND), LESS), GREATER);
  }

  /** Distinct prompts escape differently. */
  lemma PromptSafeTextIsInjective(a: Text, b: Text)
    requires PromptSafeText(a) == PromptSafeText(b)
    ensures a == b
  {
    PromptSafeTextRoundTrips(a);
    PromptSafeTextRoundTrips(b);
  }

  // ---------------------------------------------------------------- what the output never holds

  /** Every code unit of an escape is a letter, a digit, a quote or a backslash. */
  lemma UnicodeEscapeIsTame(u: Unit)
    ensures forall x :: x in UnicodeEscape(u) ==> x >= 0x20 && !Plain(x) && !High(x) && !Low(x)
  {
  }

  lemma {:induction false} ReplaceAllRemoves(t: Text, u: Unit)
    requires Plain(u)
    ensures u !in ReplaceAll(t, u)
    ensures forall x :: x in ReplaceAll(t, u) ==> x in t || (x >= 0x20 && !Plain(x) && !High(x) && !Low(x))
    decreases |t|
  {
    if t != [] {
      ReplaceAllRemoves(t[1..], u);
      UnicodeEscapeIsTame(u);
    }
  }

  lemma {:induction false} StringifyHasNoControls(t: Text)
    ensures forall x :: x in Stringify(t) ==> x >= 0x20
    decreases |t|
  {
    if t == [] {
    } else if StartsWithPair(t) {
      StringifyHasNoControls(t[2..]);
    } else {
      StringifyHasNoControls(t[1..]);
      UnicodeEscapeIsTame(t[0]);
    }
  }

  /** A quote that no escape introduces. */
  predicate HasBareQuote(t: Text)
    decreases |t|
  {
    t != [] &&
    if t[0] == QUOTE then true
    else if t[0] == BACKSLASH then |t| >= 2 && HasBareQuote(t[2..])
    else HasBareQuote(t[1..])
  }

  lemma {:induction false} DecodableHasNoBareQuote(t: Text)
    requires Decode(t).Some?
    ensures !HasBareQuote(t)
    decreases |t|
  {
    if t != [] {
      var n := DecodeFirst(t).value.1;
      DecodableHasNoBareQuote(t[n..]);
      if n == 6 {
        var digits := t[2..6];
        assert forall i :: 0 <= i < 4 ==> HexValue(digits[i]).Some?;
        assert t[2..][1..] == t[3..] && t[3..][1..] == t[4..] && t[4..][1..] == t[5..] && t[5..][1..] == t[6..];
        assert !HasBareQuote(t[5..]);
        assert !HasBareQuote(t[4..]);
        assert !HasBareQuote(t[3..]);
        assert !HasBareQuote(t[2..]);
      }
    }
  }

  /** The output holds no markup character, no control character and no bare quote. */
  lemma PromptSafeTextIsSafe(t: Text)
    ensures forall u :: u in PromptSafeText(t) ==> u != AMPERSAND && u != LESS && u != GREATER && u >= 0x20
    ensures !HasBareQuote(PromptSafeText(t))
  {
    var s := Stringify(t);
    StringifyHasNoControls(t);
    ReplaceAllRemoves(s, AMPERSAND);
    ReplaceAllRemoves(ReplaceAll(s, AMPERSAND), LESS);
    ReplaceAllRemoves(ReplaceAll(ReplaceAll(s, AMPERSAND), LESS), GREATER);
    PromptSafeTextRoundTrips(t);
    DecodableHasNoBareQuote(PromptSafeText(t));
  }

  // ---------------------------------------------------------------- one pass

  const DIGITS: Text := [
    0x30, 0x31, 0x32, 0x33, 0x34, 0x35, 0x36, 0x37, 0x38, 0x39, 0x61, 0x62, 0x63, 0x64, 0x65, 0x66]

  /** How one code unit that is not part of a pair comes out in the end. */
  function Spelled(u: Unit): Text {
    match u
    case 0x08 => [0x5C, 0x62]
    case 0x09 => [0x5C, 0x74]
    case 0x0A => [0x5C, 0x6E]
    case 0x0C => [0x5C, 0x66]
    case 0x0D => [0x5C, 0x72]
    case 0x22 => [0x5C, 0x22]
    case 0x5C => [0x5C, 0x5C]
    case _ =>
      if u < 0x20 || u == 0x26 || u == 0x3C || u == 0x3E || 0xD800 <= u <= 0xDFFF then
        [0x5C, 0x75, DIGITS[u / 0x1000], DIGITS[u / 0x100 % 0x10], DIGITS[u / 0x10 % 0x10], DIGITS[u % 0x10]]
      else [u]
  }

  function OnePass(t: Text): Text
    decreases |t|
  {
    if t == [] then []
    else if |t| >= 2 && 0xD800 <= t[0] <= 0xDBFF && 0xDC00 <= t[1] <= 0xDFFF then [t[0], t[1]] + OnePass(t[2..])
    else Spelled(t[0]) + OnePass(t[1..])
  }

  function Thrice(t: Text): Text {
    ReplaceAll(ReplaceAll(ReplaceAll(t, AMPERSAND), LESS), GREATER)
  }

  lemma ThriceConcat(a: Text, b: Text)
    ensures Thrice(a + b) == Thrice(a) + Thrice(b)
  {
    ReplaceAllConcat(a, b, AMPERSAND);
    ReplaceAllConcat(ReplaceAll(a, AMPERSAND), ReplaceAll(b, AMPERSAND), LESS);
    ReplaceAllConcat(
      ReplaceAll(ReplaceAll(a, AMPERSAND), LESS), ReplaceAll(ReplaceAll(b, AMPERSAND), LESS), GREATER);
  }

  lemma ThriceWithout(a: Text)
    requires AMPERSAND !in a && LESS !in a && GREATER !in a
    ensures Thrice(a) == a
  {
    ReplaceAllWithout(a, AMPERSAND);
    ReplaceAllWithout(a, LESS);
    ReplaceAllWithout(a, GREATER);
  }

  lemma HexIsDigits(u: Unit)
    ensures Hex(u) == [DIGITS[u / 0x1000], DIGITS[u / 0x100 % 0x10], DIGITS[u / 0x10 % 0x10], DIGITS[u % 0x10]]
  {
    HexDigitIs(u / 16 / 16 / 16);
    HexDigitIs(u / 16 / 16 % 16);
    HexDigitIs(u / 16 % 16);
    HexDigitIs(u % 16);
    assert u / 16 / 16 / 16 == u / 0x1000 && u / 16 / 16 == u / 0x100;
  }

  lemma HexDigitIs(d: nat)
    requires d < 16
    ensures HexDigit(d) == DIGITS[d]
  {
  }

  /** Up to the three markup characters, stringification already spells each unit so. */
  lemma EscapeUnitIsSpelled(u: Unit)
    ensures if Plain(u) then EscapeUnit(u) == [u] && Spelled(u) == UnicodeEscape(u) else EscapeUnit(u) == Spelled(u)
  {
    hide Hex;
    HexIsDigits(u);
  }

  lemma EscapeUnitIsTame(u: Unit)
    requires !Plain(u)
    ensures forall x :: x in EscapeUnit(u) ==> !Plain(x)
  {
    hide UnicodeEscape;
    UnicodeEscapeIsTame(u);
  }

  lemma ThriceOfUnit(u: Unit)
    ensures Thrice(EscapeUnit(u)) == Spelled(u)
  {
    hide EscapeUnit, Spelled, UnicodeEscape, ReplaceAll, Thrice;
    EscapeUnitIsSpelled(u);
    if Plain(u) {
      ThriceOfPlain(u);
    } else {
      EscapeUnitIsTame(u);
      ThriceWithout(EscapeUnit(u));
    }
  }

  lemma ThriceOfPlain(u: Unit)
    requires Plain(u)
    ensures Thrice([u]) == UnicodeEscape(u)
  {
    assert [u][1..] == [];
    assert forall x: Unit :: ReplaceAll([u], x) == if x == u then UnicodeEscape(u) + [] else [u] + [];
    assert UnicodeEscape(u) + [] == UnicodeEscape(u) && [u] + [] == [u];
    UnicodeEscapeIsTame(u);
    ReplaceAllWithout(UnicodeEscape(u), LESS);
    ReplaceAllWithout(UnicodeEscape(u), GREATER);
  }

  /** The stringification and the three replacements together are one pass over the code units. */
  lemma {:induction false} PromptSafeTextIsOnePass(t: Text)
    ensures PromptSafeText(t) == OnePass(t)
    decreases |t|
  {
    hide ReplaceAll, Thrice, EscapeUnit, Spelled;
    ThriceIs(Stringify(t));
    if t == [] {
      ThriceWithout([]);
    } else if StartsWithPair(t) {
      PromptSafeTextIsOnePass(t[2..]);
      ThriceIs(Stringify(t[2..]));
      ThriceConcat([t[0], t[1]], Stringify(t[2..]));
      ThriceWithout([t[0], t[1]]);
    } else {
      PromptSafeTextIsOnePass(t[1..]);
      ThriceIs(Stringify(t[1..]));
      ThriceConcat(EscapeUnit(t[0]), Stringify(t[1..]));
      ThriceOfUnit(t[0]);
    }
  }

  lemma ThriceIs(t: Text)
    ensures Thrice(t) == ReplaceAll(ReplaceAll(ReplaceAll(t, AMPERSAND), LESS), GREATER)
  {
  }
}
