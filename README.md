# QRIS merchant dashboard core, in Dafny

This project models the logic of a QRIS merchant dashboard, a web front end
where a merchant takes payments through dynamic QR codes and reviews its
transactions. The dashboard's logic is modelled in the following places.

- **QR payload encoder** (`src/services/QRService.js`). It builds the QRIS
  dynamic payload as EMVCo Merchant-Presented Mode data objects. Each object
  is a two-character ID, a two-digit decimal length and the value. The
  objects come in a fixed order. Objects 26, 51 and 62 are templates whose
  value is itself a list of objects, and a tip mode picks object 55, 56 or 57
  or none. The payload ends with object 63, whose value is the
  CRC-16/IBM-3740 checksum (polynomial 0x1021, initial value 0xFFFF, no
  reflection, no final XOR). The checksum is taken over the UTF-8 bytes of
  everything before it, including `"6304"`.
- **HTTP client helpers** (`src/services/AxiosInstance.js`).
  - Request URLs are normalised: query and fragment are dropped, the API
    prefix is removed, and edge slashes are trimmed.
  - Paths are matched segment by segment against patterns, where `{param}`
    stands for any non-empty segment.
  - A fixed pattern list decides which responses raise a toast.
  - A status is accepted only when it is 2xx.
- **Terminal page** (`src/pages/metronic-layouts/layout-32/terminal-page.jsx`).
  The amount keypad and the free-text amount field share one amount. The
  amount has at most 15 decimal digits and is shown with Indonesian
  thousands grouping. Finishing a payment hides it.
- **Customer QR display** (`src/pages/metronic-layouts/layout-32/terminal-qr-display.jsx`).
  - It normalises the payment message broadcast by the terminal page.
  - It shows a `mm:ss` countdown to the payment's expiry, and the countdown
    turns red in its last minute.
  - It clears the payment's fields once the payment is hidden.
- **User menu** (`src/components/layouts/layout-1/shared/topbar/user-dropdown-menu.jsx`).
  - It builds the case-insensitively distinct, first-seen list of outlet
    e-mail addresses offered for a password reset.
  - It decides when the address picker is shown.
  - It picks the address selected when the confirmation dialog opens.
- **Merchant report** (`src/pages/metronic-layouts/layout-1/merchant-report.jsx`).
  - It computes the totals over the transaction history: sum, count, average
    and the per-device and per-terminal tallies.
  - It builds the per-day chart series, sorted by day.
  - It masks account numbers.
  - It guards the history fetch with a date-range check before fetching or
    generating mock records.

Pure logic is modelled as functions, and loops as methods proved against
those functions:
- `Crc16IBM3740` is proved against `Crc16`;
- `MatchPattern` against `Matches`;
- `OutletEmails` against `Dedup`;
- `Tally` against `TallyOf`;
- `ChartData` against `BucketTotal` and `DayItems`.

Component state that the source updates through setters is a class with
`modifies` clauses:
- `TerminalPage.AmountEntry`;
- `TerminalQrDisplay.CustomerDisplay`;
- `UserDropdownMenu.ResetDialog`;
- `MerchantReport.ReportPage`.

JavaScript's value semantics are modelled explicitly in `JsValue` and
`JsString`: truthiness, `??`, `Number(v)`, `String(v)`, `trim`, `split` and
string `<`. Decimal numerals and `padStart` are in `Decimal`. A throwing
`toTLV` is modelled as `None`.

## Model

| member | source | states |
|---|---|---|
| QRService.AddFraming | src/services/QRService.js:63-68 | A value of at most 99 UTF-16 units gets a length field of exactly two digits that reads back as its length, so the object is tag, 2 and value long. A longer value gets a length field of 3 or more characters, because padStart never truncates. |
| QRService.BmpLength | src/services/QRService.js:67 | For text without characters above U+FFFF, `.length` equals the number of characters. |
| QRService.SerializeAppend | src/services/QRService.js:10-35 | Appending objects one by one with `+=` is concatenation: the text of a + b is the text of a followed by the text of b. |
| QRService.ParseSerialize | src/services/QRService.js:63-68 | Round trip: a list of objects with two-character IDs and values of at most 99 BMP characters is read back from its text exactly. |
| QRService.TemplatesAreObjectLists | src/services/QRService.js:42-62 | Object 26 is sub-objects 00 domain, 01 MPAN, 02 MID and 03 kriteria. Object 51 is 00 domain, 02 NMID and 03 kriteria. Object 62 is 01 billing and 07 terminalID. |
| QRService.TemplatesParse | src/services/QRService.js:42-62 | Each template value reads back as exactly its sub-object list when the sub-objects fit the framing. |
| QRService.TipIsTipObjects | src/services/QRService.js:19-30 | The tip text is the serialisation of the tip object list: 55 carrying "00" for mode "00", 56 for "02", 57 for "03", none for any other mode. It throws exactly when that list does (mode "03" without a tipPersen string). |
| QRService.TopLevelOrder | src/services/QRService.js:11-35 | Top-level IDs come in the order 00, 01, 26, 51, 52, 53, 54, then the tip ID of the mode, then 58, 59, 60, 61, 62. Object 00 carries "01" and object 01 carries "12". |
| QRService.TipOnlyAffectsTipObject | src/services/QRService.js:19-30 | Changing the tip mode changes only the tip object. The 7 objects before it and the 5 after it are the same. |
| QRService.PayloadBodyIsObjects | src/services/QRService.js:10-35 | With every field defined, the text before the CRC object is the serialisation of the top-level object list. |
| QRService.ToTLVLayout | src/services/QRService.js:36-37 | The payload is P + "6304" + getCRC(P + "6304"): the checksum covers its own ID and length but not its value. |
| QRService.CrcObject | src/services/QRService.js:36 | The CRC object is always "6304" followed by the four checksum digits. |
| QRService.ToTLVThrowsIff | src/services/QRService.js:8-41 | `toTLV` throws exactly when some field it reads is missing, and otherwise returns the complete payload, never a partial one. |
| QRService.MissingFieldThrows | src/services/QRService.js:38-40 | A missing field makes both the object text and the whole payload throw. |
| QRService.PayloadParses | src/services/QRService.js:8-41 | When every object fits the framing, the whole payload reads back as the top-level objects followed by object 63 holding the checksum. |
| QRService.SealedParses | src/services/QRService.js:36 | Any framable object list sealed with "6304" and four hex digits reads back as the list plus the CRC object. |
| QRService.Utf8Char | src/services/QRService.js:78 | `TextEncoder` writes 1 to 4 bytes per character, and exactly one byte, the code itself, for ASCII. |
| QRService.Utf8EncodeAppend | src/services/QRService.js:78 | The encoding of a + b is the encoding of a followed by that of b. |
| QRService.AsciiEncode | src/services/QRService.js:78 | An ASCII string encodes to one byte per character, equal to the character code. |
| QRService.BitStep | src/services/QRService.js:82-89 | One shift/XOR-0x1021 step, masked to 16 bits, leaves the register in 0..0xFFFF. |
| QRService.ByteStep | src/services/QRService.js:80-89 | Mixing a byte into the high byte and then taking eight bit steps leaves the register in 0..0xFFFF. |
| QRService.Feed | src/services/QRService.js:80-90 | Feeding bytes keeps a 16-bit register within 16 bits. |
| QRService.Crc16 | src/services/QRService.js:77-92 | The checksum, starting from 0xFFFF, is in 0..0xFFFF. |
| QRService.FeedAppend | src/services/QRService.js:80-90 | Feeding a + b is feeding a and then feeding b from the register a left. |
| QRService.Crc16IBM3740 | src/services/QRService.js:77-92 | The nested loop over the bytes and the eight bit steps returns exactly `Crc16` of the UTF-8 encoding of the string. |
| QRService.ShiftBranches | src/services/QRService.js:83-88 | Both branches of the inner loop body, masked with `& 0xFFFF`, are the bit step. |
| QRService.Hex4 | src/services/QRService.js:73 | A 16-bit value is written as exactly four uppercase hex digits. |
| QRService.PaddedHexIsHex4 | src/services/QRService.js:73 | `toString(16).toUpperCase().padStart(4, '0')` of a 16-bit value is its four-digit uppercase hex form. |
| QRService.Hex4LeadingZeros | src/services/QRService.js:73 | The digits added by padStart are zeros. |
| QRService.GetCRCIsHex4 | src/services/QRService.js:71-74 | `getCRC` is the four-digit hex form of the CRC of the UTF-8 encoding. |
| QRService.GetCRCShape | src/services/QRService.js:71-74 | `getCRC` always returns exactly four uppercase hex characters. |
| QRService.CrcCheckValues | src/services/QRService.js:77-92 | The CRC of "" is 0xFFFF, and the CRC of "123456789" is the catalogue check value 0x29B1. |
| QRService.BitStepInverse | src/services/QRService.js:82-89 | Each bit step on a 16-bit register can be undone, so no two registers collide. |
| QRService.ShiftsInjective | src/services/QRService.js:82-89 | Distinct 16-bit registers stay distinct through any number of bit steps. |
| QRService.ByteStepInjectiveInByte | src/services/QRService.js:80-89 | From the same register, two different bytes give different registers. |
| QRService.ByteStepInjectiveInRegister | src/services/QRService.js:80-89 | The same byte fed into two different registers gives different registers. |
| QRService.FeedInjective | src/services/QRService.js:80-90 | Two different registers stay different after any byte sequence. |
| QRService.CrcDetectsByteChange | src/services/QRService.js:77-92 | Changing any single byte of the input always changes the checksum. |
| AxiosInstance.StripLeadingSlashes | src/services/AxiosInstance.js:57 | `replace(/^\/+/, '')` returns a suffix of the input that does not start with '/'. Everything it drops is '/'. |
| AxiosInstance.StripTrailingSlashes | src/services/AxiosInstance.js:57 | `replace(/\/+$/, '')` returns a prefix of the input that does not end with '/'. Everything it drops is '/'. |
| AxiosInstance.TrimSlashes | src/services/AxiosInstance.js:57 | The trimmed text neither starts nor ends with '/'. |
| AxiosInstance.TrimSlashesFramed | src/services/AxiosInstance.js:57 | Trimming removes only slashes. The result is a contiguous slice of the input, and everything before and after that slice is '/', so inner slashes are kept. |
| AxiosInstance.TrimSlashesKeeps | src/services/AxiosInstance.js:57 | Text without edge slashes is left as it is, so trimming twice is trimming once. |
| AxiosInstance.TrimSlashesAvoids | src/services/AxiosInstance.js:57 | Trimming slashes introduces no character. |
| AxiosInstance.NormalizePath | src/services/AxiosInstance.js:39-59 | The normalised path has no leading or trailing '/', and an empty or undefined URL gives "". |
| AxiosInstance.NormalizeNoQueryOrHash | src/services/AxiosInstance.js:44 | The normalised path never contains '?' or '#'. |
| AxiosInstance.NormalizeStripsPrefix | src/services/AxiosInstance.js:52-54 | A path that starts with the API prefix and '/' loses exactly that prefix. The rest keeps its inner slashes and only has its edge slashes trimmed. |
| AxiosInstance.NormalizeKeepsOtherPaths | src/services/AxiosInstance.js:52-57 | A relative path without the prefix only has its edge slashes trimmed. |
| AxiosInstance.SegmentsMatchIff | src/services/AxiosInstance.js:72-83 | Segment lists match exactly when they have the same length and each segment matches. A `{name}` segment needs a non-empty value, and any other segment must be equal. |
| AxiosInstance.MatchPattern | src/services/AxiosInstance.js:66-84 | The loop with early returns decides exactly `Matches`, the segment-wise specification. |
| AxiosInstance.EmptyMatchesEmpty | src/services/AxiosInstance.js:69 | A pattern and a path that are both empty after trimming match. |
| AxiosInstance.SegmentCountMismatch | src/services/AxiosInstance.js:70-72 | A pattern and a path with different segment counts never match. |
| AxiosInstance.WildcardFreeMatchesItself | src/services/AxiosInstance.js:73-83 | A pattern without `{param}` segments matches a path exactly when they are equal after trimming. |
| AxiosInstance.MatchesReflexive | src/services/AxiosInstance.js:66-84 | Every pattern matches itself. |
| AxiosInstance.MiddleParamMatches | src/services/AxiosInstance.js:76-78 | `l/{param}/r` matches a path exactly when the trimmed path is `l/x/r` for some non-empty segment x. |
| AxiosInstance.FixedToastPatterns | src/services/AxiosInstance.js:20-27 | There are six patterns. The first four have no wildcard and no edge slash. |
| AxiosInstance.ToastPaths | src/services/AxiosInstance.js:89-92 | A URL toasts exactly when its normalised path is one of the four fixed endpoints, `terminal/x/delete` or `history/x/trx`, with x a non-empty segment. |
| AxiosInstance.NoUrlNoToast | src/services/AxiosInstance.js:89-91 | A missing URL never toasts. |
| AxiosInstance.ValidateStatus | src/services/AxiosInstance.js:109-111 | A status is accepted exactly when it is in 200..299. |
| TerminalPage.KeepDigits | src/pages/metronic-layouts/layout-32/terminal-page.jsx:197 | Removing non-digits leaves only digits and never lengthens the text. |
| TerminalPage.KeepDigitsOfDigits | src/pages/metronic-layouts/layout-32/terminal-page.jsx:197 | All-digit text is kept whole. |
| TerminalPage.KeepDigitsEmpty | src/pages/metronic-layouts/layout-32/terminal-page.jsx:197-204 | Nothing is left exactly when the input holds no digit. |
| TerminalPage.KeepDigitsAppend | src/pages/metronic-layouts/layout-32/terminal-page.jsx:197 | The digits of a + b are the digits of a followed by the digits of b. Together with KeepDigitsOfDigits and KeepDigitsEmpty this says the filter keeps exactly the input's digits, in order. |
| TerminalPage.KeepDigitsOfGrouped | src/pages/metronic-layouts/layout-32/terminal-page.jsx:197 | Filtering a '.'-grouped numeral gives back its digits. |
| TerminalPage.TypedAfterShownText | src/pages/metronic-layouts/layout-32/terminal-page.jsx:194-209 | When text is typed after the shown grouped amount, the field's digits are the amount's numeral followed by the typed digits. |
| TerminalPage.ShownTextReadsBack | src/pages/metronic-layouts/layout-32/terminal-page.jsx:194-209 | Handing the shown grouped text of an amount below 10^15 back to the field gives the same amount. |
| TerminalPage.TakeMax | src/pages/metronic-layouts/layout-32/terminal-page.jsx:199 | `slice(0, 15)` keeps text of at most 15 characters and otherwise its first 15. |
| TerminalPage.UngroupThousands | src/pages/metronic-layouts/layout-32/terminal-page.jsx:206 | Removing the '.' separators from the grouped numeral gives back the digits. |
| TerminalPage.LocaleReadsBack | src/pages/metronic-layouts/layout-32/terminal-page.jsx:206 | The `id-ID` text of an amount, without its separators, is the decimal numeral of that amount. |
| TerminalPage.FormatIdrEmpty | src/pages/metronic-layouts/layout-32/terminal-page.jsx:222 | `formatIdr` gives "" exactly for amount 0. |
| TerminalPage.AppendNothingOrZeros | src/pages/metronic-layouts/layout-32/terminal-page.jsx:225-232 | Appending "" leaves the amount unchanged. Appending only zeros to 0 keeps the amount 0 and the text "". |
| TerminalPage.AppendedAmountBound | src/pages/metronic-layouts/layout-32/terminal-page.jsx:233-234 | The amount never grows past 15 digits. |
| TerminalPage.AppendedAmountFits | src/pages/metronic-layouts/layout-32/terminal-page.jsx:233-234 | When everything fits in 15 digits, appending d to n gives n * 10^len(d) + value(d). |
| TerminalPage.AppendedAmountFull | src/pages/metronic-layouts/layout-32/terminal-page.jsx:233-234 | Appending to a 15-digit amount leaves it unchanged. |
| TerminalPage.BackspaceDividesByTen | src/pages/metronic-layouts/layout-32/terminal-page.jsx:239-245 | Backspace maps amount n to n div 10, so a single digit becomes 0. |
| TerminalPage.AmountEntry.constructor | src/pages/metronic-layouts/layout-32/terminal-page.jsx:30-42 | The page starts with text "", amount 0 and a payment whose fields are null except amount 0. |
| TerminalPage.AmountEntry.HandleAmountChange | src/pages/metronic-layouts/layout-32/terminal-page.jsx:194-209 | The amount is the value of the first 15 digits of the input. The text is "" when there are none and the grouped amount otherwise. The payment is untouched. |
| TerminalPage.AmountEntry.AppendDigits | src/pages/metronic-layouts/layout-32/terminal-page.jsx:224-237 | The amount becomes the value of the first 15 characters of the numeral with d appended, and the text is `formatIdr` of it. "" changes nothing, and the entry stays valid (at most 15 digits, text showing the amount). |
| TerminalPage.AmountEntry.BackspaceDigit | src/pages/metronic-layouts/layout-32/terminal-page.jsx:239-245 | The amount becomes the old amount div 10, and the text is `formatIdr` of it. |
| TerminalPage.AmountEntry.ClearAll | src/pages/metronic-layouts/layout-32/terminal-page.jsx:247-250 | The amount becomes 0 and the text "". |
| TerminalPage.AmountEntry.FinishPayment | src/pages/metronic-layouts/layout-32/terminal-page.jsx:187-191 | `display` becomes false, and every other payment field and the amount are unchanged. |
| TerminalQrDisplay.DataOf | src/pages/metronic-layouts/layout-32/terminal-qr-display.jsx:80 | `raw \|\| {}`: a missing message reads as one with every field undefined. |
| TerminalQrDisplay.Normalize | src/pages/metronic-layouts/layout-32/terminal-qr-display.jsx:81-89 | `display` is the truthiness of the field. Undefined time, outlet, QR and NMID become null and other values are kept. A non-numeric or zero amount or expiry becomes 0, and a non-zero one is its `Number` value. |
| TerminalQrDisplay.NormalizeMessageOf | src/pages/metronic-layouts/layout-32/terminal-qr-display.jsx:81-89 | Round trip: a payment with defined fields, sent as a message and normalised again, is unchanged. |
| TerminalQrDisplay.NormalizeEmpty | src/pages/metronic-layouts/layout-32/terminal-qr-display.jsx:80-89 | An empty message gives the display's initial hidden payment. |
| TerminalQrDisplay.Pad2Value | src/pages/metronic-layouts/layout-32/terminal-qr-display.jsx:63-64 | `String(n).padStart(2, '0')` is at least two digits and reads back as n. |
| TerminalQrDisplay.CountdownReadsBack | src/pages/metronic-layouts/layout-32/terminal-qr-display.jsx:59-65 | The countdown text splits at ':' into minutes and two-digit seconds below 60. Together they are the remaining time rounded down to the second. |
| TerminalQrDisplay.SeverityOf | src/pages/metronic-layouts/layout-32/terminal-qr-display.jsx:37-41 | Red exactly when the part before the first ':' (of "00:00" for empty text) is not a positive number. |
| TerminalQrDisplay.SeverityOfCountdown | src/pages/metronic-layouts/layout-32/terminal-qr-display.jsx:37-41 | The countdown is red exactly in its last minute. |
| TerminalQrDisplay.SeverityOfZero | src/pages/metronic-layouts/layout-32/terminal-qr-display.jsx:38-40 | "00:00" and the empty text are red. |
| TerminalQrDisplay.Remaining | src/pages/metronic-layouts/layout-32/terminal-qr-display.jsx:59 | The remaining time is clamped at 0. It is 0 exactly when there is no end time or the end time has passed, and otherwise it is the end time minus now. |
| TerminalQrDisplay.RemainingShrinks | src/pages/metronic-layouts/layout-32/terminal-qr-display.jsx:59 | The remaining time never grows as the clock advances. |
| TerminalQrDisplay.CustomerDisplay.constructor | src/pages/metronic-layouts/layout-32/terminal-qr-display.jsx:11-24 | The display starts hidden with the initial payment, "00:00", normal colour, no end time and no timer. |
| TerminalQrDisplay.CustomerDisplay.ClearTimer | src/pages/metronic-layouts/layout-32/terminal-qr-display.jsx:43-48 | The interval is stopped and nothing else changes. |
| TerminalQrDisplay.CustomerDisplay.Tick | src/pages/metronic-layouts/layout-32/terminal-qr-display.jsx:58-71 | While time remains, the text is the `mm:ss` of the remaining time. At 0, the payment is hidden and the timer is stopped, with every other field kept. |
| TerminalQrDisplay.CustomerDisplay.StartNewCountdown | src/pages/metronic-layouts/layout-32/terminal-qr-display.jsx:50-76 | A non-positive expiry sets "00:00" and starts no timer. Otherwise the end time is now + expiry, the first tick shows the full expiry and the timer runs. |
| TerminalQrDisplay.CustomerDisplay.HandleIncoming | src/pages/metronic-layouts/layout-32/terminal-qr-display.jsx:79-93 | The payment becomes the normalised message. A countdown starts only when it is displayed, and a hidden one leaves the countdown state unchanged. |
| TerminalQrDisplay.CustomerDisplay.CountdownIfDisplayed | src/pages/metronic-layouts/layout-32/terminal-qr-display.jsx:90-92 | The countdown is started from the payment's expiry exactly when the payment is displayed. |
| TerminalQrDisplay.CustomerDisplay.OnFormattedTimeChanged | src/pages/metronic-layouts/layout-32/terminal-qr-display.jsx:37-41 | The colour becomes the severity of the current text, and nothing else changes. |
| TerminalQrDisplay.CustomerDisplay.OnDisplayChanged | src/pages/metronic-layouts/layout-32/terminal-qr-display.jsx:131-145 | A hidden payment loses its time, QR and NMID (null) and its amount and expiry (0), and keeps its outlet. The timer stops and the text is "00:00". A displayed payment is left alone. |
| UserDropdownMenu.AsList | src/components/layouts/layout-1/shared/topbar/user-dropdown-menu.jsx:74 | An array is taken as it is, a single outlet as a one-element list, and a falsy value as []. |
| UserDropdownMenu.ShouldShowSelect | src/components/layouts/layout-1/shared/topbar/user-dropdown-menu.jsx:67 | The picker is shown exactly when the outlets are an array of more than one. |
| UserDropdownMenu.OutletEmails | src/components/layouts/layout-1/shared/topbar/user-dropdown-menu.jsx:73-87 | The loop with its seen-set returns exactly `Dedup` of the outlet list. |
| UserDropdownMenu.DedupPrefix | src/components/layouts/layout-1/shared/topbar/user-dropdown-menu.jsx:76-85 | The addresses of a prefix of the outlets are a prefix of the whole result: entries are only ever appended. |
| UserDropdownMenu.DedupLength | src/components/layouts/layout-1/shared/topbar/user-dropdown-menu.jsx:76-85 | The result is never longer than the outlet list. |
| UserDropdownMenu.DedupTrimmed | src/components/layouts/layout-1/shared/topbar/user-dropdown-menu.jsx:78-80 | Every entry is non-empty and has no surrounding white space. |
| UserDropdownMenu.DedupDistinct | src/components/layouts/layout-1/shared/topbar/user-dropdown-menu.jsx:81-83 | No two entries are equal ignoring case. |
| UserDropdownMenu.DedupComplete | src/components/layouts/layout-1/shared/topbar/user-dropdown-menu.jsx:76-85 | Every outlet whose string address is non-empty after trimming has an entry equal to it ignoring case. |
| UserDropdownMenu.DedupFirstSeen | src/components/layouts/layout-1/shared/topbar/user-dropdown-menu.jsx:84 | Every entry is the trimmed address, in its own casing, of the first outlet with that address ignoring case. |
| UserDropdownMenu.NewAddressIsFirst | src/components/layouts/layout-1/shared/topbar/user-dropdown-menu.jsx:82-84 | When an outlet adds an entry, it is the first outlet with that key, and its trimmed address is appended at the end. |
| UserDropdownMenu.DefaultSelection | src/components/layouts/layout-1/shared/topbar/user-dropdown-menu.jsx:94 | An existing selection is kept. Otherwise the first address is chosen, or "" when there is none. |
| UserDropdownMenu.DefaultSelectionFromOutlets | src/components/layouts/layout-1/shared/topbar/user-dropdown-menu.jsx:92-96 | With no prior choice and some address, the selection is non-empty and is the first-seen address of some outlet. |
| UserDropdownMenu.ResetDialog.constructor | src/components/layouts/layout-1/shared/topbar/user-dropdown-menu.jsx:66-88 | The dialog starts closed with no address selected. |
| UserDropdownMenu.ResetDialog.SetOpen | src/components/layouts/layout-1/shared/topbar/user-dropdown-menu.jsx:299 | Opening or closing the dialog keeps the selection. |
| UserDropdownMenu.ResetDialog.Select | src/components/layouts/layout-1/shared/topbar/user-dropdown-menu.jsx:311 | Picking an address selects it and leaves the dialog as it was. |
| UserDropdownMenu.ResetDialog.SyncSelection | src/components/layouts/layout-1/shared/topbar/user-dropdown-menu.jsx:92-96 | An open dialog gets the default selection, and a closed one keeps its selection. |
| UserDropdownMenu.CanConfirm | src/components/layouts/layout-1/shared/topbar/user-dropdown-menu.jsx:336 | Confirming is possible only when no reset is in flight, and then only with an address chosen whenever the picker is shown. Conversely, with no reset in flight, confirming is possible when the picker is hidden, or when it is shown and an address is chosen. |
| UserDropdownMenu.ResetEmail | src/components/layouts/layout-1/shared/topbar/user-dropdown-menu.jsx:117 | `selectedEmail \|\| undefined`: no address is sent exactly when none is selected. |
| MerchantReport.Amount | src/pages/metronic-layouts/layout-1/merchant-report.jsx:76 | A falsy amount counts as 0, and any other amount is its `Number` value. |
| MerchantReport.Add | src/pages/metronic-layouts/layout-1/merchant-report.jsx:76 | A sum is a number exactly when both terms are, and then it is their sum. |
| MerchantReport.AddAssociative | src/pages/metronic-layouts/layout-1/merchant-report.jsx:76 | Addition with NaN propagation is associative. |
| MerchantReport.TotalAmountNaN | src/pages/metronic-layouts/layout-1/merchant-report.jsx:76 | The total is NaN exactly when some record's amount is NaN. |
| MerchantReport.TotalAmountAppend | src/pages/metronic-layouts/layout-1/merchant-report.jsx:76 | The total of a + b is the total of a plus the total of b. |
| MerchantReport.MissingAmountAddsNothing | src/pages/metronic-layouts/layout-1/merchant-report.jsx:76 | A record with a missing amount does not change the total. |
| MerchantReport.Average | src/pages/metronic-layouts/layout-1/merchant-report.jsx:78 | The average is 0 for an empty history. It is NaN exactly when the total is, and otherwise average times count equals the total. |
| MerchantReport.TallyKey | src/pages/metronic-layouts/layout-1/merchant-report.jsx:80 | A falsy device or terminal is tallied under "-", and a non-empty string under itself. |
| MerchantReport.TallyCounts | src/pages/metronic-layouts/layout-1/merchant-report.jsx:79-83 | The tally has exactly the keys that occur, each with its number of occurrences. |
| MerchantReport.TallySum | src/pages/metronic-layouts/layout-1/merchant-report.jsx:79-83 | The tally's counts add up to the number of keys. |
| MerchantReport.Tally | src/pages/metronic-layouts/layout-1/merchant-report.jsx:79-83 | The reducing loop builds exactly `TallyOf`, so each key counts its occurrences. |
| MerchantReport.ComputeTotals | src/pages/metronic-layouts/layout-1/merchant-report.jsx:75-90 | `count` is the history length, and `totalAmount` is the sum with missing amounts as 0. `avg` is the average, and the two tallies are built over the device and terminal keys. |
| MerchantReport.TalliesAddUpToCount | src/pages/metronic-layouts/layout-1/merchant-report.jsx:79-88 | The per-device counts and the per-terminal counts each add up to `count`. |
| MerchantReport.MissingDeviceCountedAsDash | src/pages/metronic-layouts/layout-1/merchant-report.jsx:80-81 | A record without a device puts at least 1 under "-". |
| MerchantReport.BookedIffRecord | src/pages/metronic-layouts/layout-1/merchant-report.jsx:95-98 | A day has records exactly when some record with a valid timestamp falls on it. |
| MerchantReport.OrZero | src/pages/metronic-layouts/layout-1/merchant-report.jsx:99 | `prev \|\| 0` keeps a truthy bucket and turns a missing, 0 or NaN bucket into 0. |
| MerchantReport.BucketTotalSnoc | src/pages/metronic-layouts/layout-1/merchant-report.jsx:99-100 | A day's bucket after one more record is the previous bucket, or 0 when falsy, plus the record's amount. |
| MerchantReport.CollectBuckets | src/pages/metronic-layouts/layout-1/merchant-report.jsx:94-101 | The loop leaves a bucket exactly for each day that has records, holding that day's bucket total. It also lists each such day once, in the order of the day's first record (`FirstSeenDays`), which is the Map's insertion order. |
| MerchantReport.FirstSeenBooked | src/pages/metronic-layouts/layout-1/merchant-report.jsx:94-101 | The first-seen day list holds exactly the days that have records. |
| MerchantReport.FirstSeenOrder | src/pages/metronic-layouts/layout-1/merchant-report.jsx:94-101 | For a day listed before another, every record of the later day is preceded by a record of the earlier one. |
| MerchantReport.InsertAscending | src/pages/metronic-layouts/layout-1/merchant-report.jsx:104 | Inserting a point with a new date keeps the list in ascending date order. |
| MerchantReport.SortByDate | src/pages/metronic-layouts/layout-1/merchant-report.jsx:104 | Sorting rearranges the points: same multiset. |
| MerchantReport.SortAscending | src/pages/metronic-layouts/layout-1/merchant-report.jsx:104 | Points with distinct dates come out in strictly ascending date order under string `<`. |
| MerchantReport.ChartedSorted | src/pages/metronic-layouts/layout-1/merchant-report.jsx:102-104 | Sorting the entries keeps one point per booked day with its bucket total, and makes them ascending. |
| MerchantReport.ChartData | src/pages/metronic-layouts/layout-1/merchant-report.jsx:93-106 | The series is ascending by date and has a point for every day with a valid record. Each point is such a day, holding the day's bucket total. Records with invalid timestamps are skipped. |
| MerchantReport.DaySumAll | src/pages/metronic-layouts/layout-1/merchant-report.jsx:94-101 | Summing the per-day totals over distinct days that cover every booked day gives the total of the dated records. |
| MerchantReport.BucketTotalNumeric | src/pages/metronic-layouts/layout-1/merchant-report.jsx:99-100 | With numeric amounts, a bucket is the plain sum of its records. |
| MerchantReport.BucketRestartsAfterNaN | src/pages/metronic-layouts/layout-1/merchant-report.jsx:99 | A NaN amount makes the bucket NaN, and the next record restarts it from 0 (`NaN \|\| 0`), while the report total stays NaN. |
| MerchantReport.ChartAddsUp | src/pages/metronic-layouts/layout-1/merchant-report.jsx:93-106 | With numeric amounts, the chart's amounts add up to the total of the records with valid timestamps. |
| MerchantReport.DigitRun | src/pages/metronic-layouts/layout-1/merchant-report.jsx:72 | The digit run from a position is all digits and ends at a non-digit or at the end, as the greedy `\d+` does. |
| MerchantReport.FindLongRun | src/pages/metronic-layouts/layout-1/merchant-report.jsx:72 | A match starts where at least 9 digits follow. |
| MerchantReport.FindLongRunLeftmost | src/pages/metronic-layouts/layout-1/merchant-report.jsx:72 | The match is the leftmost position with 9 digits, and no match means no run of 9 digits anywhere. |
| MerchantReport.MaskDigits | src/pages/metronic-layouts/layout-1/merchant-report.jsx:72 | Text shorter than 9 characters, or with no run of 9 digits (no regex match), is unchanged. |
| MerchantReport.MaskAcc | src/pages/metronic-layouts/layout-1/merchant-report.jsx:72 | A falsy account shows "-", and a non-empty string is masked. |
| MerchantReport.MaskAllDigits | src/pages/metronic-layouts/layout-1/merchant-report.jsx:72 | An all-digit account of 9 or more digits shows its first 4 digits, "••••" and its last 4 digits. |
| MerchantReport.MaskAccNumber | src/pages/metronic-layouts/layout-1/merchant-report.jsx:72 | A numeric account has 9 or more digits exactly when it is at least 10^8. It is then masked to first 4, "••••" and last 4, and a shorter non-zero one is shown whole. |
| MerchantReport.MaskKeepsEnds | src/pages/metronic-layouts/layout-1/merchant-report.jsx:72 | Masking keeps everything up to the first 4 digits of the run, then puts the four bullets, then keeps everything from the run's last 4 digits. The result is as long as the input minus the run's hidden middle digits plus 4. |
| MerchantReport.HistoryPath | src/pages/metronic-layouts/layout-1/merchant-report.jsx:151 | The request path is "/history/", then the merchant id, then "/trx". |
| MerchantReport.ReportPage.constructor | src/pages/metronic-layouts/layout-1/merchant-report.jsx:19-24 | The page starts on its range with no error, no history, no request and nothing loading. |
| MerchantReport.ReportPage.HandleTransactionHistory | src/pages/metronic-layouts/layout-1/merchant-report.jsx:120-159 | See below the table. |
| MerchantReport.ReportPage.HandleTransactionHistoryMock | src/pages/metronic-layouts/layout-1/merchant-report.jsx:161-176 | A range that starts after it ends sets the range error and keeps the history. Otherwise the error is cleared and the history becomes the generated records. No request is sent and loading ends. |
| Decimal.DecimalRoundTrip | src/pages/metronic-layouts/layout-32/terminal-page.jsx:233-234 | `Number(String(n))` is n for a whole number n ≥ 0. |
| Decimal.DecimalLength | src/pages/metronic-layouts/layout-32/terminal-page.jsx:233 | A numeral has at most k digits exactly when the number is below 10^k. |
| Decimal.PadStart | src/services/QRService.js:67 | `padStart` never truncates, fills on the left and keeps the text as its suffix. |
| JsString.LexLessTotal | src/pages/metronic-layouts/layout-1/merchant-report.jsx:104 | String `<` orders any two distinct strings. |
| JsString.LexLessTransitive | src/pages/metronic-layouts/layout-1/merchant-report.jsx:104 | String `<` is transitive. |
| JsString.JoinSplit | src/pages/metronic-layouts/layout-32/terminal-qr-display.jsx:38 | Joining the pieces of `split` with the separator gives back the text. |

`MerchantReport.ReportPage.HandleTransactionHistory` states the following.
- The range is always kept, and loading always ends.
- A range that starts after it ends sets the range error and sends no request. The history is untouched.
- Otherwise, a missing session user or merchant id gives the fetch error and leaves the history as it was.
- In mock mode, the history becomes the generated records without a request.
- In every other case, exactly one request to `/history/<id>/trx` is sent. Then:
  - a rejected request gives the fetch error and keeps the history;
  - a reply that is not an array gives an empty history;
  - an array reply becomes the history.

## Left out

- The axios instance itself is not modelled: headers, credentials, and the response and error interceptors (src/services/AxiosInstance.js:97-145) are I/O. Only `validateStatus` and the toast decision they use are modelled.
- AxiosInstance.NormalizePath: the absolute-URL branch calls the browser `URL` parser. Its pathname extraction is a function parameter, and `NormalizeNoQueryOrHash` assumes that parser returns no '?' or '#'.
- AxiosInstance.NormalizePath: `new URL(raw)` throws on an absolute URL it cannot parse, such as "http://" (src/services/AxiosInstance.js:48). The `pathname` parameter is a total function, so this throw is not modelled.
- The API path prefix is a parameter: it comes from runtime configuration through the `URL` parser.
- QRService.Tip: `parseFloat(tipAmount).toFixed(2)` for object 56 is a function parameter, because floating point is not modelled.
- QRService.ParseSerialize: the round trip is stated for values of BMP characters, where `.length` equals the character count.
- QRService.QRData: a field holding an array, or another object with a `length`, is not modelled. `padding` would read that `length` without throwing.
- QRService.ToTLV models a thrown error as `None`. The error message is not modelled.
- Numbers are integers.
  - `Number(v)` reads integer decimal text with an optional sign and surrounding white space, and anything else is NaN.
  - Fractions, exponents, hex literals and infinities are not modelled.
  - MerchantReport.Average is an exact rational, not a rounded double.
- TerminalPage.AmountEntry.AppendDigits requires its argument to be digits, because the keypad only ever passes digit strings.
- TerminalPage.ToLocaleIdId writes `toLocaleString('id-ID')` for whole numbers ≥ 0 as '.'-grouped thousands. Other locale data is not modelled.
- The `Intl.NumberFormat` currency text (`formatIDR` in the report and `formattedAmount` on the display) is not modelled.
- MerchantReport.Tally: the source counts into a plain object `{}`, and the model counts into a map. Keys named after `Object.prototype` properties (`constructor`, `toString`, `valueOf`, `hasOwnProperty`, `__proto__`, …) are counted here as ordinary keys. In the source, an inherited method plus 1 becomes a string (`"function Object() { [native code] }1"`), and a `__proto__` key is not stored at all.
- MerchantReport.TallyCounts: exact counts hold for the map model only. They do not hold for keys named after `Object.prototype` properties, for the reason given for `Tally`.
- MerchantReport.ComputeTotals: `byDevice` and `byTerminal` are the map tallies. They differ from the source's objects for devices or terminals named after `Object.prototype` properties, for the reason given for `Tally`.
- MerchantReport.TalliesAddUpToCount: the counts add up to `count` in the map model. In the source they can fall short when a device or terminal is named `__proto__` or after an inherited method.
- History entries are always records (`Trx`). A history array that holds `null` makes `it.amount` throw in the totals and the chart (src/pages/metronic-layouts/layout-1/merchant-report.jsx:76, 100), and that throw is not modelled.
- MerchantReport.ChartAddsUp requires every amount to be numeric. `buckets.get(key) || 0` restarts a NaN bucket from 0 at the next record, so with NaN amounts the chart does not add up to the (NaN) total (see `BucketRestartsAfterNaN`).
- Dates come from `moment`. A record's day key is a given field: whatever `YYYY-MM-DD` key `moment(it.timestamprq)` yields (a missing timestamp gives the current day), and None only for an invalid moment. The report's range is two integers (milliseconds).
- The date presets (`applyPreset`), the date formatting of the request payload and the `moment` locale are not modelled.
- Timers and clocks are explicit.
  - `Date.now()` is the `now` parameter of the display's methods.
  - `setInterval`/`clearInterval` are the `timerRunning` flag.
  - The terminal page's own countdown (`startNewCountDown`, driven by `moment`) is not modelled.
- React effects and setters are explicit methods that run the effect body once. Re-rendering and batching of state updates are not modelled.
- Cross-tab messaging is not modelled: `BroadcastChannel`, the `storage` event fallback, `localStorage`, `window.open` and JSON (de)serialisation of the message. The display's input is the message's fields.
- The QR creation request and `startPayment` on the terminal page are not modelled. They are network I/O plus a call into `toTLV`, which is modelled.
- The session (`AuthService`) is the `kdUser` parameter, mock mode (`isMockEnabled`) a boolean parameter, and the generated mock records a parameter.
- The catch branch of `handleTransactionHistoryMock` is not modelled: generation is a parameter, so it cannot throw.
- UserDropdownMenu.Key: `toLowerCase` is modelled on ASCII letters only. Unicode case mapping is not modelled.
- Logout, theme toggling, the reset-password request, console logging and toasts are not modelled. They are I/O.
- QR rendering, printing and page layout are not modelled.
