# Two-factor entry form of the eduVPN macOS client

This project models `Enter2FAViewController`, the screen on which a user of
the eduVPN macOS client types a second-factor token. The screen has a
segmented control choosing the token format (segment 0: a 6-digit
time-based code, segment 1: a 44-character code of lowercase letters), a
text field, a done button and a back button. It validates the typed text
against the selected format, keeps the done button's enabled state in step
with that validation, and reports either the validated token or a
cancellation to its delegate.

Layout:

- `wrappers.dfy` (module `Wrappers`): `Option`, standing for Swift's optional.
- `foundation.dfy` (module `Foundation`): the Foundation string API the
  form relies on. It covers the character sets `decimalDigits`,
  `lowercaseLetters` and `whitespacesAndNewlines` and their `inverted`
  complements, `rangeOfCharacter(from:)` and `trimmingCharacters(in:)`. Each
  comes with lemmas that pin down its meaning: the first match, and exactly
  the padding removed.
- `enter2fa.dfy` (module `Enter2FA`):
  - The validator `ValidToken(segment, text)`, which is `validToken()` with
    the two controls it reads passed as parameters.
  - Lemmas that characterise the validator for each segment.
  - The class `Enter2FAViewController`, whose fields are the enabled flags
    of the three controls, the selected segment, the text, whether the
    alert sheet is attached, and a ghost log of delegate notifications.

Assumptions stated by the model:

- A Swift `String` is a sequence of Unicode scalars, and `count` is its
  length.
- Decimal digits are `0`-`9` and lowercase letters are `a`-`z`.
- White space and newlines follow Foundation's documented set: Unicode
  category Z, U+0009, U+000A to U+000D, and U+0085.
- The delegate is a log of `Entered(token)` and `Cancelled` events.
- `beginSheetModal` makes the window modal. While the alert sheet is
  attached, no control action reaches the form. So the control-driven
  methods require that no sheet is attached, and `AlertDismissed` requires
  one.
- The user's edit of the text field and the selection of a segment are
  folded into `ControlTextDidChange(text)` and `TypeChanged(segment)`. Each
  takes the new value as a parameter.

Behaviour of the code worth noting:

- Both formats produce the same `Totp` tag (lines 59 and 65). No separate
  tag is introduced for the long code.
- After the invalid-token alert is dismissed, only the text field is
  re-enabled (line 87). No method ever re-enables the segmented control
  after `Done`. The class contracts show this, since each method either
  keeps `segmentedControlEnabled` or sets it to false.
- `goBack` notifies the delegate whenever it is called. The code does not
  restrict it to the editing state.

## Model

| member | source | states |
|---|---|---|
| Foundation.RangeOfCharacterFirst | eduVPN/Enter2FAViewController.swift:58 | `rangeOfCharacter(from:)` returns the index of the first character in the set, with none before it; it returns nothing exactly when no character is in the set |
| Foundation.RangeOfInvertedNone | eduVPN/Enter2FAViewController.swift:58 | searching for the inverted set finds nothing if and only if every character of the string is in the set |
| Foundation.DropLeadingSpec | eduVPN/Enter2FAViewController.swift:55 | the leading trim removes a prefix made only of set characters and stops at the first character outside the set |
| Foundation.DropTrailingSpec | eduVPN/Enter2FAViewController.swift:55 | the trailing trim removes a suffix made only of set characters and stops at the last character outside the set |
| Foundation.TrimmingCharactersSlice | eduVPN/Enter2FAViewController.swift:55 | the trimmed text is a slice of the input, everything around it is white space or newlines, and it neither starts nor ends with one |
| Foundation.DropLeadingPadding | eduVPN/Enter2FAViewController.swift:55 | a leading run of set characters does not change the leading trim |
| Foundation.DropTrailingPadding | eduVPN/Enter2FAViewController.swift:55 | a trailing run of set characters does not change the trailing trim |
| Foundation.TrimmingCharactersPadded | eduVPN/Enter2FAViewController.swift:55 | trimming removes exactly the surrounding padding: padded text trims back to itself |
| Foundation.TrimmingCharactersIdempotent | eduVPN/Enter2FAViewController.swift:55 | trimming an already trimmed string changes nothing |
| Enter2FA.ValidTokenTotp | eduVPN/Enter2FAViewController.swift:57-62 | with segment 0 a token is returned if and only if the trimmed text is exactly 6 decimal digits |
| Enter2FA.ValidTokenLongCode | eduVPN/Enter2FAViewController.swift:63-68 | with segment 1 a token is returned if and only if the trimmed text is exactly 44 lowercase letters |
| Enter2FA.ValidTokenOtherSegment | eduVPN/Enter2FAViewController.swift:69-71 | any segment other than 0 and 1 yields no token, whatever the text |
| Enter2FA.ValidTokenIsTrimmedCode | eduVPN/Enter2FAViewController.swift:55-68 | a returned token is `Totp` of the trimmed text, not the raw text, and its code has the shape of the selected segment |
| Enter2FA.ValidTokenIgnoresPadding | eduVPN/Enter2FAViewController.swift:55 | surrounding white space and newlines never change the result: `ValidToken(seg, p + s + q) == ValidToken(seg, s)` |
| Enter2FA.ValidTokenOfTrimmed | eduVPN/Enter2FAViewController.swift:55 | validating the trimmed text gives the same result as validating the raw text |
| Enter2FA.TrimmedUnchanged | eduVPN/Enter2FAViewController.swift:55 | text without surrounding white space is left as it is by the trim (a corollary of `Foundation.TrimmingCharactersPadded`) |
| Enter2FA.TotpAccepted | eduVPN/Enter2FAViewController.swift:57-59 | "123456" on segment 0 yields the token `Totp("123456")` |
| Enter2FA.PaddedFiveDigitsRejected | eduVPN/Enter2FAViewController.swift:55-61 | " 12345 " on segment 0 is rejected: the spaces are trimmed, leaving five digits |
| Enter2FA.TotpRejectedAsLongCode | eduVPN/Enter2FAViewController.swift:63-67 | a 6-digit code is rejected on segment 1 |
| Enter2FA.LongCodeAccepted | eduVPN/Enter2FAViewController.swift:63-65 | 44 lowercase letters on segment 1 yield a token carrying them |
| Enter2FA.UppercaseLongCodeRejected | eduVPN/Enter2FAViewController.swift:63-67 | 44 characters with one uppercase letter are rejected on segment 1 |
| Enter2FA.Enter2FAViewController.constructor | eduVPN/Enter2FAViewController.swift:33-38 | the controls start as the interface file sets them, with no notification sent and no sheet attached |
| Enter2FA.Enter2FAViewController.GoBack | eduVPN/Enter2FAViewController.swift:50-52 | exactly one `Cancelled` notification is appended; every control flag, the segment and the text are unchanged |
| Enter2FA.Enter2FAViewController.TypeChanged | eduVPN/Enter2FAViewController.swift:74-76 | after a segment change the done button is enabled if and only if the input validates; no other control changes and no notification is sent |
| Enter2FA.Enter2FAViewController.ControlTextDidChange | eduVPN/Enter2FAViewController.swift:98-100 | after a text change the done button is enabled if and only if the input validates; no other control changes and no notification is sent |
| Enter2FA.Enter2FAViewController.Done | eduVPN/Enter2FAViewController.swift:78-93 | all three controls end disabled. Invalid input attaches the alert and notifies nobody. Valid input appends exactly one `Entered(t)`, where `t` is the validated token. Every token ever delivered is well-formed |
| Enter2FA.Enter2FAViewController.AlertDismissed | eduVPN/Enter2FAViewController.swift:86-88 | dismissing the alert re-enables the text field only; the segmented control and the done button stay disabled |

## Left out

- The title styling in `viewDidLoad` (lines 40-48) is left out. It only sets fonts, colours and alignment.
- `Done`: the force-unwrap of `self.view.window!` (line 86) is not modelled; the model assumes the view is in a window, which it is whenever the done button can be clicked, so the invalid path always attaches the alert sheet rather than crashing.
- The `NSAlert` built from `Error.invalidToken` is left out, and so are its localized message and recovery strings (lines 18-31, 85-86). Only the attached sheet and its completion handler are modelled.
- `resignFirstResponder` (line 80) is left out. Keyboard focus is not part of the model's state.
- The weak `delegate` (line 33) is left out. A nil delegate, which would drop a notification, is not modelled: the log records every notification the form sends.
- Foundation's Unicode-wide `decimalDigits` and `lowercaseLetters` are left out. For example, the full-width digits U+FF10 to U+FF19 would pass the Swift check but fail the model's. The model uses ASCII ranges.
- Swift's grapheme-cluster `count` is left out. `count` is the number of Unicode scalars, so text with combining marks is counted differently from Swift.
- The `TwoFactor` type is defined elsewhere in the application and is not part of this model. Only its `totp` case, the one this form produces, is modelled.
- The back button outlet and the sender arguments of the actions (lines 37, 50, 74, 78) carry no state the form reads.
