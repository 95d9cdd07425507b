/**
 Chilean phone normalisation and the match between an input phone and the phone of an address
 row. Inputs are the text `String(value)`; an absent input is the empty text, which every
 function here treats alike.
 */
module Phones {
  import opened Options

  predicate IsDigit(c: char) {
    '0' <= c <= '9'
  }

  predicate AllDigits(s: string) {
    forall c <- s :: IsDigit(c)
  }

  /** The digits of a text, and nothing else. */
  function KeepDigits(text: string): (r: string)
    ensures AllDigits(r)
    ensures AllDigits(text) ==> r == text
  {
    if text == "" then ""
    else if IsDigit(text[0]) then [text[0]] + KeepDigits(text[1..])
    else KeepDigits(text[1..])
  }

  function DigitsOnly(text: string): Option<string> {
    if KeepDigits(text) == "" then None else Some(KeepDigits(text))
  }

  function NormalizePhone(text: string): Option<string> {
    var digits := KeepDigits(text);
    if "56" <= digits && 11 <= |digits| <= 12 then Some(digits[..11])
    else if |digits| == 9 && "9" <= digits then Some("56" + digits)
    else if |digits| == 11 && "569" <= digits then Some(digits)
    else None
  }

  function NormalizeWaId(text: string): Option<string> {
    NormalizePhone(text).OrElse(DigitsOnly(text))
  }

  /** Eleven digits that start with the country code. */
  predicate NormalForm(phone: string) {
    AllDigits(phone) && |phone| == 11 && "56" <= phone
  }

  /** Adding to a JavaScript set: its elements keep the order of their first insertion. */
  function Add(candidates: seq<string>, c: string): (r: seq<string>)
    ensures forall x :: x in r <==> x in candidates || x == c
  {
    if c in candidates then candidates else candidates + [c]
  }

  ghost function Candidates(text: string): set<string> {
    var digits := KeepDigits(text);
    var normalized := NormalizePhone(text);
    (if digits != "" then {digits} else {})
    + (if normalized.Some? then {normalized.value, normalized.value[2..]} else {})
  }

  method BuildPhoneCandidates(text: string) returns (candidates: seq<string>)
    ensures (set c <- candidates) == Candidates(text)
  {
    var normalized, digits := NormalizePhone(text), DigitsOnly(text);
    candidates := [];
    if normalized.Some? {
      candidates := Add(candidates, normalized.value);
    }
    if digits.Some? {
      candidates := Add(candidates, digits.value);
    }
    if normalized.Some? && "56" <= normalized.value && |normalized.value| == 11 {
      candidates := Add(candidates, normalized.value[2..]);
    }
    if digits.Some? && |digits.value| == 9 && "9" <= digits.value {
      candidates := Add(candidates, digits.value);
      candidates := Add(candidates, "56" + digits.value);
    }
  }

  // ----- properties

  lemma {:induction false} KeepDigitsTwice(a: string, b: string)
    ensures KeepDigits(a + b) == KeepDigits(a) + KeepDigits(b)
  {
    if a == "" {
      assert a + b == b;
    } else {
      assert (a + b)[1..] == a[1..] + b;
      KeepDigitsTwice(a[1..], b);
    }
  }

  /** The fixed points of normalisation are the normal forms, and every result is one. */
  lemma NormalizeIsIdempotent(text: string)
    ensures NormalizePhone(text).Some? ==> NormalForm(NormalizePhone(text).value)
    ensures NormalizePhone(text) == Some(text) <==> NormalForm(text)
    ensures NormalizePhone(text).Some? ==> NormalizePhone(NormalizePhone(text).value) == NormalizePhone(text)
  {
    if NormalForm(text) {
      NormalFormIsFixed(text);
    }
    if NormalizePhone(text).Some? {
      NormalFormIsFixed(NormalizePhone(text).value);
    }
  }

  lemma NormalFormIsFixed(phone: string)
    requires NormalForm(phone)
    ensures NormalizePhone(phone) == Some(phone)
  {
    assert phone[..11] == phone;
  }

  lemma {:induction false} NoDigitsLeft(text: string)
    requires forall c <- text :: !IsDigit(c)
    ensures KeepDigits(text) == ""
  {
    if text != "" {
      NoDigitsLeft(text[1..]);
    }
  }

  lemma SeparatorsLeaveDigits(a: string, separator: string, b: string)
    requires forall c <- separator :: !IsDigit(c)
    ensures KeepDigits(a + separator + b) == KeepDigits(a + b)
  {
    NoDigitsLeft(separator);
    KeepDigitsTwice(a, separator + b);
    KeepDigitsTwice(separator, b);
    KeepDigitsTwice(a, b);
    assert a + separator + b == a + (separator + b);
    assert "" + KeepDigits(b) == KeepDigits(b);
  }

  /** Separators, signs and spaces may stand anywhere in a phone. */
  lemma SeparatorsDoNotMatter(a: string, separator: string, b: string)
    requires forall c <- separator :: !IsDigit(c)
    ensures NormalizePhone(a + separator + b) == NormalizePhone(a + b)
    ensures NormalizeWaId(a + separator + b) == NormalizeWaId(a + b)
    ensures Candidates(a + separator + b) == Candidates(a + b)
  {
    SeparatorsLeaveDigits(a, separator, b);
    OnlyDigitsMatter(a + separator + b, a + b);
  }

  lemma OnlyDigitsMatter(a: string, b: string)
    requires KeepDigits(a) == KeepDigits(b)
    ensures NormalizePhone(a) == NormalizePhone(b) && NormalizeWaId(a) == NormalizeWaId(b)
    ensures Candidates(a) == Candidates(b)
  {
  }

  /** Which digits lead to a given normal form: itself, itself with a twelfth digit, or its nine-digit mobile part. */
  lemma NormalizeOrigins(text: string, phone: string)
    requires NormalForm(phone)
    ensures var digits := KeepDigits(text);
      NormalizePhone(text) == Some(phone) <==>
        digits == phone || (|digits| == 12 && phone <= digits) || (phone[2] == '9' && digits == phone[2..])
  {
    var digits := KeepDigits(text);
    if |digits| == 12 {
      assert phone <= digits <==> digits[..11] == phone;
    } else if |digits| == 11 {
      assert digits[..11] == digits;
    } else if |digits| == 9 {
      assert "56" + digits == phone <==> digits == phone[2..];
      assert digits == phone[2..] ==> digits[0] == phone[2];
    }
  }

  /** The row's phone, read through `normalizePhoneChile`, against the input's phone and WhatsApp id. */
  method MatchByPhone(rowText: string, phone: string, waId: string) returns (matches: bool)
    ensures matches <==> var row := NormalizePhone(rowText);
      row.Some? && (NormalizePhone(phone) == row || NormalizePhone(waId) == row)
  {
    var phoneCandidates := BuildPhoneCandidates(phone);
    var waIdPhoneCandidates := BuildPhoneCandidates(waId);
    var rowPhone := NormalizePhone(rowText);
    matches := rowPhone.Some? &&
      (NormalizePhone(phone) == rowPhone
       || NormalizeWaId(waId) == rowPhone
       || rowPhone.value in phoneCandidates
       || rowPhone.value in waIdPhoneCandidates);
    if rowPhone.Some? {
      NormalizeIsIdempotent(rowText);
      CandidatesInNormalForm(phone, rowPhone.value);
      CandidatesInNormalForm(waId, rowPhone.value);
      assert rowPhone.value in phoneCandidates <==> rowPhone.value in (set c <- phoneCandidates);
      assert rowPhone.value in waIdPhoneCandidates <==> rowPhone.value in (set c <- waIdPhoneCandidates);
    }
  }

  /** For a row phone in normal form the candidate list says no more than the normal form does. */
  lemma CandidatesInNormalForm(text: string, row: string)
    requires NormalForm(row)
    ensures row in Candidates(text) <==> NormalizePhone(text) == Some(row)
    ensures NormalizeWaId(text) == Some(row) <==> NormalizePhone(text) == Some(row)
  {
    NormalizeIsIdempotent(row);
    if KeepDigits(text) == row {
      OnlyDigitsMatter(text, row);
    }
  }

  /** The candidates are the digits themselves, the normal form if there is one, and its last nine digits. */
  lemma CandidatesIff(text: string, c: string)
    ensures c in Candidates(text) <==>
      || (c == KeepDigits(text) && exists d <- text :: '0' <= d <= '9')
      || NormalizePhone(text) == Some(c)
      || (|c| == 9 && NormalizePhone(text) == Some("56" + c))
  {
    NormalizeIsIdempotent(text);
    DigitsLeft(text);
    if NormalizePhone(text).Some? {
      assert NormalizePhone(text).value == "56" + NormalizePhone(text).value[2..];
      assert ("56" + c)[2..] == c;
    }
  }

  lemma {:induction false} DigitsLeft(text: string)
    ensures KeepDigits(text) != "" <==> exists d <- text :: '0' <= d <= '9'
  {
    if text != "" {
      DigitsLeft(text[1..]);
      assert text[0] in text && forall d :: d in text <==> d == text[0] || d in text[1..];
    }
  }

  /**
   A WhatsApp id that is no Chilean phone keeps all its digits; it is absent only if there are none.
   Normalising it again changes nothing.
   */
  lemma WaIdKeepsDigits(text: string)
    ensures NormalizeWaId(text).None? <==> forall c <- text :: !('0' <= c <= '9')
    ensures NormalizePhone(text).Some? ==> NormalizeWaId(text) == NormalizePhone(text)
    ensures NormalizePhone(text).None? && NormalizeWaId(text).Some? ==> NormalizeWaId(text) == Some(KeepDigits(text))
    ensures NormalizeWaId(text).Some? ==> NormalizeWaId(NormalizeWaId(text).value) == NormalizeWaId(text)
  {
    DigitsLeft(text);
    NormalizeIsIdempotent(text);
    OnlyDigitsMatter(text, KeepDigits(text));
  }

  /**
   Every candidate handed to the query normalises back to the input's normal form exactly when
   the input has none or is a mobile number: the nine-digit candidate of a landline does not.
   */
  lemma CandidatesNormalizeBackIff(text: string)
    ensures (forall c <- Candidates(text) :: NormalizePhone(c) == NormalizePhone(text))
      <==> (NormalizePhone(text).Some? ==> NormalizePhone(text).value[2] == '9')
  {
    var digits, normalized := KeepDigits(text), NormalizePhone(text);
    NormalizeIsIdempotent(text);
    OnlyDigitsMatter(text, digits);
    if normalized.Some? {
      var local := normalized.value[2..];
      assert KeepDigits(local) == local;
      assert local in Candidates(text);
      assert "56" + local == normalized.value;
      if normalized.value[2] == '9' {
        assert "9" <= local;
        assert NormalizePhone(local) == normalized;
      } else {
        assert local[0] == normalized.value[2];
        assert NormalizePhone(local).None?;
      }
    }
  }

  lemma LandlineCandidateMatchesNothing(phone: string, candidate: string)
    requires phone == "56223456789" && candidate == phone[2..]
    ensures NormalizePhone(phone) == Some(phone)
    ensures candidate in Candidates(phone) && NormalizePhone(candidate).None?
  {
    assert phone[..11] == phone;
    NormalizeIsIdempotent(phone);
  }
}
