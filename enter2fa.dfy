/**
 * The two-factor entry form of the eduVPN macOS client: a segmented control
 * choosing the token format, a text field, a done button and a back button.
 * The form validates the typed token against the chosen format, keeps the
 * done button's enabled state in step with that validation, and reports
 * either the token or a cancellation to its delegate.
 */
module Enter2FA {
  import opened Wrappers
  import opened Foundation

  /** Segment 0 of the segmented control: a 6-digit time-based code. */
  const TotpSegment := 0
  /** Segment 1 of the segmented control: a 44-letter lowercase code. */
  const LongCodeSegment := 1

  const TotpLength := 6
  const LongCodeLength := 44

  /**
   * The token handed to the delegate. Both formats are tagged `Totp`, as
   * the form tags them; the other cases of the application's type are not
   * produced here.
   */
  datatype TwoFactor = Totp(code: string)

  /** The text field's content with white space and newlines trimmed off both ends. */
  function Trim(text: string): (r: string) {
    TrimmingCharacters(text, WhitespacesAndNewlines)
  }

  /**
   * `validToken()`: the token for the selected segment and the field's
   * text, or `None` when the trimmed text does not have the segment's
   * length and character class, or the segment is neither 0 nor 1.
   */
  function ValidToken(segment: int, text: string): (r: Option<TwoFactor>) {
    var s := Trim(text);
    if segment == TotpSegment then
      if |s| == TotpLength && RangeOfCharacter(s, Inverted(DecimalDigits)) == None
      then Some(Totp(s)) else None
    else if segment == LongCodeSegment then
      if |s| == LongCodeLength && RangeOfCharacter(s, Inverted(LowercaseLetters)) == None
      then Some(Totp(s)) else None
    else None
  }

  /** The shape of a 6-digit code: exactly six decimal digits. */
  ghost predicate IsTotpCode(s: string) {
    |s| == TotpLength && forall i :: 0 <= i < |s| ==> IsDecimalDigit(s[i])
  }

  /** The shape of a long code: exactly 44 lowercase letters. */
  ghost predicate IsLongCode(s: string) {
    |s| == LongCodeLength && forall i :: 0 <= i < |s| ==> IsLowercaseLetter(s[i])
  }

  /** A token the delegate may receive: its code has one of the two shapes. */
  ghost predicate WellFormed(t: TwoFactor) {
    IsTotpCode(t.code) || IsLongCode(t.code)
  }

  /** Segment 0 yields a token exactly when the trimmed text is six decimal digits. */
  lemma ValidTokenTotp(text: string)
    ensures ValidToken(TotpSegment, text).Some? <==> IsTotpCode(Trim(text))
  {
    RangeOfInvertedNone(Trim(text), DecimalDigits);
  }

  /** Segment 1 yields a token exactly when the trimmed text is 44 lowercase letters. */
  lemma ValidTokenLongCode(text: string)
    ensures ValidToken(LongCodeSegment, text).Some? <==> IsLongCode(Trim(text))
  {
    RangeOfInvertedNone(Trim(text), LowercaseLetters);
  }

  /** Any other segment index yields no token, whatever the text. */
  lemma ValidTokenOtherSegment(segment: int, text: string)
    requires segment != TotpSegment && segment != LongCodeSegment
    ensures ValidToken(segment, text) == None
  {
  }

  /**
   * A returned token carries the trimmed text, not the raw text, and that
   * code has the shape of the selected segment.
   */
  lemma ValidTokenIsTrimmedCode(segment: int, text: string)
    requires ValidToken(segment, text).Some?
    ensures ValidToken(segment, text) == Some(Totp(Trim(text)))
    ensures segment == TotpSegment ==> IsTotpCode(Trim(text))
    ensures segment == LongCodeSegment ==> IsLongCode(Trim(text))
    ensures WellFormed(ValidToken(segment, text).value)
  {
    if segment == TotpSegment {
      ValidTokenTotp(text);
    } else {
      ValidTokenLongCode(text);
    }
  }

  /** White space and newlines around the text never change the outcome. */
  lemma ValidTokenIgnoresPadding(segment: int, p: string, s: string, q: string)
    requires AllIn(p, WhitespacesAndNewlines) && AllIn(q, WhitespacesAndNewlines)
    requires Trimmed(s, WhitespacesAndNewlines)
    ensures ValidToken(segment, p + s + q) == ValidToken(segment, s)
  {
    TrimmingCharactersPadded(p, s, q, WhitespacesAndNewlines);
    TrimmingCharactersPadded([], s, [], WhitespacesAndNewlines);
    assert [] + s + [] == s;
  }

  /** Validating the text and validating its trimmed form agree. */
  lemma ValidTokenOfTrimmed(segment: int, text: string)
    ensures ValidToken(segment, Trim(text)) == ValidToken(segment, text)
  {
    TrimmingCharactersIdempotent(text, WhitespacesAndNewlines);
  }

  /** Six digits are accepted on segment 0. */
  lemma TotpAccepted()
    ensures ValidToken(TotpSegment, "123456") == Some(Totp("123456"))
  {
    var t := "123456";
    TrimmedUnchanged(t);
    assert IsTotpCode(t);
    ValidTokenTotp(t);
    ValidTokenIsTrimmedCode(TotpSegment, t);
  }

  /** Five digits inside spaces are rejected on segment 0: the spaces do not count. */
  lemma PaddedFiveDigitsRejected()
    ensures ValidToken(TotpSegment, " 12345 ") == None
  {
    TrimmingCharactersPadded(" ", "12345", " ", WhitespacesAndNewlines);
    assert " " + "12345" + " " == " 12345 ";
    ValidTokenTotp(" 12345 ");
  }

  /** A six-digit code is rejected on segment 1, whose format is 44 letters. */
  lemma TotpRejectedAsLongCode()
    ensures ValidToken(LongCodeSegment, "123456") == None
  {
    TrimmedUnchanged("123456");
    ValidTokenLongCode("123456");
  }

  /** Forty-four lowercase letters are accepted on segment 1. */
  lemma LongCodeAccepted()
    ensures var t := "abcdefghijklmnopqrstuvwxyzabcdefghijklmnopqr";
            ValidToken(LongCodeSegment, t) == Some(Totp(t))
  {
    var t := "abcdefghijklmnopqrstuvwxyzabcdefghijklmnopqr";
    TrimmedUnchanged(t);
    assert IsLongCode(t);
    ValidTokenLongCode(t);
    ValidTokenIsTrimmedCode(LongCodeSegment, t);
  }

  /** One uppercase letter among lowercase ones makes a long code invalid. */
  lemma UppercaseLongCodeRejected()
    ensures ValidToken(LongCodeSegment, "abcdefghijklmnopqrstuvwxyzabcdefghijklmnopqQ") == None
  {
    var t := "abcdefghijklmnopqrstuvwxyzabcdefghijklmnopqQ";
    TrimmedUnchanged(t);
    assert !IsLowercaseLetter(t[43]);
    ValidTokenLongCode(t);
  }

  /**
   * Text without surrounding white space is left as it is by the trim: the
   * white-space instance of `TrimmingCharactersPadded` with empty padding.
   */
  lemma TrimmedUnchanged(t: string)
    requires Trimmed(t, WhitespacesAndNewlines)
    ensures Trim(t) == t
  {
    TrimmingCharactersPadded([], t, [], WhitespacesAndNewlines);
    assert [] + t + [] == t;
  }

  /** Notifications sent to the delegate. */
  datatype DelegateEvent = Entered(token: TwoFactor) | Cancelled

  /**
   * The view controller's mutable state: the enabled flags of its three
   * controls, the selected segment, the text field's string value, whether
   * the invalid-token alert sheet is attached to the window, and the log of
   * notifications the delegate has received.
   *
   * While the alert sheet is attached, the window is modal and delivers no
   * events to the controls; the methods triggered by the controls require
   * that no sheet is attached.
   */
  class Enter2FAViewController {
    var segmentedControlEnabled: bool
    var textFieldEnabled: bool
    var doneButtonEnabled: bool
    var selectedSegment: int
    var stringValue: string
    var sheetAttached: bool
    ghost var events: seq<DelegateEvent>

    /**
     * While the alert is up every control is disabled, and every token the
     * delegate has received has one of the two accepted shapes.
     */
    ghost predicate Valid()
      reads this
    {
      (sheetAttached ==> !segmentedControlEnabled && !textFieldEnabled && !doneButtonEnabled)
      && (forall k :: 0 <= k < |events| && events[k].Entered? ==> WellFormed(events[k].token))
    }

    /** The done button is enabled exactly when the current input validates. */
    ghost predicate DoneMirrorsInput()
      reads this
    {
      doneButtonEnabled == ValidToken(selectedSegment, stringValue).Some?
    }

    /** The controls as the interface file sets them up; no notification sent yet. */
    constructor (segment: int, text: string, segmentEnabled: bool, textEnabled: bool, doneEnabled: bool)
      ensures selectedSegment == segment && stringValue == text
      ensures segmentedControlEnabled == segmentEnabled && textFieldEnabled == textEnabled
      ensures doneButtonEnabled == doneEnabled
      ensures !sheetAttached && events == []
      ensures Valid()
    {
      selectedSegment, stringValue := segment, text;
      segmentedControlEnabled, textFieldEnabled, doneButtonEnabled := segmentEnabled, textEnabled, doneEnabled;
      sheetAttached := false;
      events := [];
    }

    /** `goBack(_:)`: tells the delegate the entry was cancelled; nothing else changes. */
    method GoBack()
      requires Valid() && !sheetAttached
      modifies this
      ensures events == old(events) + [Cancelled]
      ensures segmentedControlEnabled == old(segmentedControlEnabled)
      ensures textFieldEnabled == old(textFieldEnabled)
      ensures doneButtonEnabled == old(doneButtonEnabled)
      ensures selectedSegment == old(selectedSegment) && stringValue == old(stringValue)
      ensures sheetAttached == old(sheetAttached)
      ensures Valid()
    {
      events := events + [Cancelled];
    }

    /**
     * `typeChanged(_:)`: the user selected `segment`; the done button is
     * re-enabled exactly when the input validates under that segment.
     */
    method TypeChanged(segment: int)
      requires Valid() && !sheetAttached
      modifies this
      ensures selectedSegment == segment && stringValue == old(stringValue)
      ensures doneButtonEnabled == ValidToken(segment, stringValue).Some?
      ensures segmentedControlEnabled == old(segmentedControlEnabled)
      ensures textFieldEnabled == old(textFieldEnabled)
      ensures sheetAttached == old(sheetAttached) && events == old(events)
      ensures Valid() && DoneMirrorsInput()
    {
      selectedSegment := segment;
      doneButtonEnabled := ValidToken(selectedSegment, stringValue) != None;
    }

    /**
     * `controlTextDidChange(_:)`: the text field now holds `text`; the done
     * button is re-enabled exactly when that text validates.
     */
    method ControlTextDidChange(text: string)
      requires Valid() && !sheetAttached
      modifies this
      ensures stringValue == text && selectedSegment == old(selectedSegment)
      ensures doneButtonEnabled == ValidToken(selectedSegment, text).Some?
      ensures segmentedControlEnabled == old(segmentedControlEnabled)
      ensures textFieldEnabled == old(textFieldEnabled)
      ensures sheetAttached == old(sheetAttached) && events == old(events)
      ensures Valid() && DoneMirrorsInput()
    {
      stringValue := text;
      doneButtonEnabled := ValidToken(selectedSegment, stringValue) != None;
    }

    /**
     * `done(_:)`: disables all three controls, then either hands the token
     * to the delegate (exactly one `Entered` notification) or attaches the
     * invalid-token alert without notifying the delegate.
     */
    method Done()
      requires Valid() && !sheetAttached
      modifies this
      ensures !segmentedControlEnabled && !textFieldEnabled && !doneButtonEnabled
      ensures selectedSegment == old(selectedSegment) && stringValue == old(stringValue)
      ensures ValidToken(selectedSegment, stringValue).None? ==>
                sheetAttached && events == old(events)
      ensures ValidToken(selectedSegment, stringValue).Some? ==>
                !sheetAttached && events == old(events) + [Entered(ValidToken(selectedSegment, stringValue).value)]
      ensures Valid()
    {
      segmentedControlEnabled := false;
      textFieldEnabled := false;
      doneButtonEnabled := false;

      var token := ValidToken(selectedSegment, stringValue);
      if token == None {
        sheetAttached := true;
        return;
      }

      ValidTokenIsTrimmedCode(selectedSegment, stringValue);
      ghost var before := events;
      events := events + [Entered(token.value)];
      forall k | 0 <= k < |events| && events[k].Entered?
        ensures WellFormed(events[k].token)
      {
        if k < |before| {
          assert events[k] == before[k];
        }
      }
    }

    /**
     * The completion handler of the invalid-token alert: the sheet is gone
     * and only the text field is re-enabled; the segmented control and the
     * done button stay disabled.
     */
    method AlertDismissed()
      requires Valid() && sheetAttached
      modifies this
      ensures !sheetAttached && textFieldEnabled
      ensures !segmentedControlEnabled && !doneButtonEnabled
      ensures selectedSegment == old(selectedSegment) && stringValue == old(stringValue)
      ensures events == old(events)
      ensures Valid()
    {
      sheetAttached := false;
      textFieldEnabled := true;
    }
  }
}
