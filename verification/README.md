# Nequi receipt bot: text parsing and receipt formatting in Dafny

This project models the deterministic core of `bot.py`, a Telegram bot.
A user sends a message `Nombre | Monto | Número`, and the bot replies with
an image of a Nequi payment receipt. The model covers:

- **Message parsing** (`handle_message`). The delimiter is `|`, or `,`
  when the text has no `|`. The text is split with Python `str.split`
  semantics, which keep empty pieces. There must be exactly three
  pieces. Each piece is stripped with `str.strip()`, and an empty field
  is refused. Each outcome is one `ParseResult` constructor:
  `Ok`, `BadFormat`, `WrongCount` or `EmptyField`.
- **Phone grouping**. The number is shown as `n[:3] + " " + n[3:6] + " " + n[6:]`,
  with Python's clamped slices and no length check.
- **Amount formatting**. This is Python's `f"${x:,.2f}"` followed by the
  `,`/`.` swap through a temporary `X`. The amount is a whole number of
  cents, and it may be negative, since the code does not reject that.
- **Date line and reference**. The date line is
  `"<day> de <mes> de <year> a las <hh:mm am/pm>"`. The reference is
  `"M"` followed by the first eight characters of `%H%M%S%f`. The clock
  reading is a parameter, `Clock`.
- **The receipt and the reply**. Around the formatting, the model also
  covers the receipt as an ordered list of `draw.text` commands (position,
  text, colour, font), the font fallback chain as "first file that loads"
  over an oracle, and the choice of reply to one message.

Modules, one per file:

| module | file | content |
|---|---|---|
| `Wrappers` | `wrappers.dfy` | `Option` |
| `Decimal` | `decimal.dfy` | `str(n)`, zero-padded strftime fields, reading digits back |
| `Strings` | `strings.dfy` | `split`, `join`, `strip`, single-character `replace` |
| `MessageParser` | `message_parser.dfy` | the parser |
| `PhoneFormat` | `phone_format.dfy` | phone grouping |
| `AmountFormat` | `amount_format.dfy` | amount formatting |
| `Timestamp` | `timestamp.dfy` | date line and reference |
| `Receipt` | `receipt.dfy` | fonts, layout, drawing commands, reply |

Every formatter is paired with a reader or an inverse: `Ungroup`,
`ReadAmount`, `ReadDate`, `ReadReference`, `MonthNumber` and `Join`. The
lemmas prove that nothing shown on the receipt is lost.

`bot.py` has one layout and no user store, and it checks neither the
amount's sign nor the phone's length. The model has the same scope: one
layout, any amount that `toCents` turns into whole cents, and any phone
text.

## Model

| member | source | states |
|---|---|---|
| Strings.SplitCount | bot.py:141-143 | `text.split(d)` has one more piece than the number of occurrences of `d` |
| Strings.SplitPiecesFree | bot.py:141-143 | no piece of a split contains the separator |
| Strings.JoinSplit | bot.py:141-143 | joining the pieces with the separator gives back the original text |
| Strings.SplitJoin | bot.py:141-143 | splitting a join of separator-free pieces gives back the pieces, so split and join are inverse |
| Strings.SplitConcat | bot.py:141-143 | splitting `a + [d] + b` gives the pieces of `a` followed by the pieces of `b` |
| Strings.Strip | bot.py:153 | `strip()` is empty exactly when the piece is all white space (Python's `isspace` set); otherwise it starts and ends with a non-space |
| Strings.StripInfix | bot.py:153 | the stripped field is the infix of the piece between a leading and a trailing run of white space |
| MessageParser.Delimiter | bot.py:140-150 | the delimiter is `\|` exactly when the text has one, `,` exactly when it has a comma but no `\|`, and there is none when it has neither |
| MessageParser.ParseBadFormat | bot.py:140-150 | the format refusal happens exactly when the text has neither `\|` nor `,` |
| MessageParser.ParseWrongCount | bot.py:182-187 | the count refusal (the else branch of line 152) happens exactly when a delimiter exists and occurs other than twice |
| MessageParser.ParseOk | bot.py:152-158 | a receipt is requested exactly when the split gives three pieces, none of them all white space |
| MessageParser.ParseEmptyField | bot.py:157-160 | the empty-field refusal happens exactly when there are three pieces and one of them is all white space |
| MessageParser.ParseOkRejoins | bot.py:141-153 | an accepted text has the delimiter exactly twice; its fields are the stripped pieces, and the raw pieces rejoined give the text |
| MessageParser.ParseJoin | bot.py:141-158 | three `\|`-free pieces, none all white space, joined with `\|`, parse to their stripped forms |
| MessageParser.ParseOkFields | bot.py:152-158 | accepted fields are non-empty, have no surrounding white space and do not contain the delimiter |
| PhoneFormat.FormatPhone | bot.py:88 | the grouped number is two characters longer than the input |
| PhoneFormat.FormatPhoneAt | bot.py:88 | character by character, the grouped number is the input with a space inserted at `min(3, \|n\|)` and at `min(6, \|n\|) + 1` |
| PhoneFormat.FormatPhoneGrouped | bot.py:88 | the grouped number has a space at both gap positions |
| PhoneFormat.UngroupFormat | bot.py:88 | deleting the two inserted spaces gives back every input, including inputs shorter than six characters |
| PhoneFormat.FormatUngroup | bot.py:88 | every text with spaces at the two gaps is the grouping of its ungrouped form |
| PhoneFormat.FormatPhoneKeepsCharacters | bot.py:88 | for input without spaces, deleting all spaces from the grouped number gives the input |
| PhoneFormat.FormatPhoneTen | bot.py:88 | a ten-character number shows as `ddd ddd dddd` |
| AmountFormat.SwapSeparators | bot.py:84 | the chained replace keeps the length; each `,` becomes `.`, each `.` becomes `,`, an `X` becomes `.`, and every other character is kept |
| AmountFormat.SwapSeparatorsInvolution | bot.py:84 | on text without `X`, swapping twice is the identity |
| AmountFormat.PythonAmountNoX | bot.py:84 | Python's amount text contains no `X`, so the temporary character never collides |
| AmountFormat.GroupThousandsDigits | bot.py:84 | deleting the separators from the grouped integer part leaves `str(n)` |
| AmountFormat.GroupThousandsGroups | bot.py:84 | split at the separators, the integer part is a leading group of 1 to 3 digits with no leading zero unless the amount is below 1, then groups of exactly 3 digits |
| AmountFormat.GroupThousandsResep | bot.py:84 | grouping with one separator and replacing it by another gives the grouping with the other separator |
| AmountFormat.FormatAmountShape | bot.py:84 | the drawn amount is `$`, a minus sign when negative, the integer part grouped with `.`, then `,` and exactly two decimals |
| AmountFormat.ReadMagnitudeRoundTrip | bot.py:84 | the text of a non-negative amount, `"1,234.50"`, reads back as the same number of cents |
| AmountFormat.ReadPythonAmount | bot.py:84 | Python's `"$-1,234.50"` form reads back as the same cents, sign included |
| AmountFormat.AmountRoundTrip | bot.py:84 | swapping the separators of the drawn amount back and reading it gives the cents |
| Decimal.Digits | bot.py:98 | `str(n)` is a non-empty digit string that reads back as `n`, with no leading zero except for zero itself |
| Decimal.PadDigitsValue | bot.py:102 | a `w`-wide zero-padded field reads back as `n mod 10^w` |
| Decimal.DigitsSplit3 | bot.py:84 | for `n >= 1000`, `str(n)` is `str(n // 1000)` followed by the last three digits, zero-padded |
| Timestamp.MonthNameRoundTrip | bot.py:93-97 | each of the 12 month names is found again by lookup, is non-empty and has no space |
| Timestamp.Hour12 | bot.py:98 | `%I` gives 1 to 12: hour 0 is 12, hours 1 to 12 stay, hours 13 to 23 lose twelve |
| Timestamp.ClockTextRoundTrip | bot.py:98 | the clock text has two digits for `%I` and two for the minute, `am` exactly before noon, and reads back as the hour of the day and the minute |
| Timestamp.DateWordsJoin | bot.py:98 | the date line is its nine words joined by single spaces |
| Timestamp.DateRoundTrip | bot.py:92-98 | the date line reads back as day, month, year, hour and minute |
| Timestamp.MicroPrefix | bot.py:102 | the first two characters of the six-digit `%f` are the hundredths of a second, zero-padded |
| Timestamp.Reference | bot.py:102 | the reference is `M` then 8 digits: hour, minute, second and hundredths, two digits each |
| Timestamp.ReferenceRoundTrip | bot.py:102 | the reference reads back as hour, minute, second and hundredths |
| Timestamp.ReferenceCollision | bot.py:101-102 | two readings give the same reference exactly when they agree on hour, minute, second and hundredths, on any dates |
| Receipt.FirstLoadable | bot.py:36-69 | the index found is the first file that loads, or the end of the list if none loads |
| Receipt.ResolveFont | bot.py:36-69 | a TrueType font is the first listed file that loads, at 42 px; the built-in font is used exactly when none loads |
| Receipt.PlaceLayout | bot.py:72-103 | each text is drawn at its field's coordinates in colour (20, 0, 35) and the chosen font; the fields form one column, top to bottom |
| Receipt.DrawReceiptLayout | bot.py:72-103 | the five `draw.text` calls draw name, amount, phone, date and reference in that order, at their coordinates, colour and font |
| Receipt.DrawReceiptReadBack | bot.py:81-103 | each drawn text reads back: the name as given, the cents, the phone number, the date to the minute and the time to the hundredth |
| Receipt.HandleMessagePhoto | bot.py:130-192 | a photo is sent exactly when the generator is ready, the text parses and the amount converts; its caption is the stripped name, and the drawn amount and phone read back as the message's |
| Receipt.HandleMessageRefusals | bot.py:130-187 | each refusal happens exactly under its own condition, checked in this order: generator missing, no delimiter, wrong count, empty field |

## Left out

- Telegram transport is not modelled: `start_command`, `error_handler`, `main`, sending replies and photos, and the reply texts. `Reply` names which reply is sent.
- Image work is not modelled: `Image.open`, `template.copy()`, `ImageDraw` and rasterising text. A receipt is the ordered list of `draw.text` commands.
- Temporary files (`img.save`, `os.remove`) and logging/`print` are not modelled.
- `.env` and token loading are not modelled.
- The module-level `generator` singleton becomes the `ready` flag of `HandleMessage`.
- HandleMessage: `float(monto)` is the oracle `toCents`, which gives whole cents or None where `float` raises. The model therefore leaves out float parsing, binary rounding to two decimals, `inf`/`nan` and exponent syntax. Amounts below zero that round to zero cents (`-0`, `-0.004`) show `$-0,00` in bot.py and `$0,00` in the model, because whole cents have no negative zero.
- HandleMessage: the generic error reply for an exception raised while drawing or sending is not modelled. Only the one raised by `float` is (`Failure`).
- ResolveFont: whether a font file opens is the oracle `loads`. Font metrics and the built-in font's look are not modelled.
- Timestamp: `datetime.now()` is the `Clock` parameter. `%p` is taken as `AM`/`PM` before lower-casing, and the locale that could change it is not modelled.
- Timestamp.MonthName: requires a month from 1 to 12. A `datetime` always satisfies this, so the failed dictionary lookup cannot happen.
- Strings.Split: models splitting on one character only, which is all the bot does.
