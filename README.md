# IMC calculator: number entry, validation and classification

This project models, in Dafny, the core of a small React Native screen that
computes a body mass index ("IMC", `peso / altura²`) from two text fields.
The fields use Brazilian-Portuguese number conventions: `,` is the decimal
separator and `.` groups thousands.

The model covers four parts of `App.js`.

- **The keystroke sanitiser** `tratarEntrada` (`sanitizer.dfy`).
  - `Sanitizer.TratarEntrada` follows the source's steps: a regular-expression filter, then `split(',')` and `join('')`, then the same for `.`.
  - It is proved equal to `Sanitizer.Sanitize`, a separate one-pass description: keep a character when it is a digit, or a separator of a kind not yet kept.
  - The properties of the field's text are proved about `Sanitize`.
- **Normalisation and `parseFloat`** (`locale_number.dfy`).
  - Normalisation deletes every `.` and turns every `,` into `.`.
  - `parseFloat` is modelled on digits and `.`: it reads the longest prefix of the form digits, optional `.` and digits. A prefix with no digit is NaN, here `None`.
  - This file also holds the `toLocaleString('pt-BR')` formatting of the index. It proves that the shown text reads back to the shown amount.
- **The validator** `validarCampo` and the **band chain** of `calcularIMC` (`imc.dfy`).
- **The screen state** (`imc.dfy`).
  - The state is the class `Imc.Calculadora`. It has the five `useState` fields and a log `alertas` of the error messages shown.
  - Its methods are the two fields' edits, `calcularIMC` and `limparCampos`.

`text.dfy` states the JavaScript string operations used (`replaceAll`,
`split`, `join`) over `seq<char>`.

Facts of `App.js` that shape the model:

- `tratarEntrada` takes only the new text (App.js:15). The model's sanitiser has that one argument.
- `validarCampo` returns a single boolean (App.js:54-61). `calcularIMC` calls it for the weight and then for the height (App.js:64-65), so each failing field shows its own alert, weight first.
- `faixa` holds the Portuguese labels written at App.js:84-89, and `Imc.Rotulo` returns exactly those strings.

## Model

| member | source | states |
|---|---|---|
| Text.RemoveAll | App.js:55 | `replaceAll(c, '')` shortens the text by the number of `c`, and the result holds exactly the characters of the input other than `c` |
| Text.ReplaceAll | App.js:55 | `replaceAll(c, d)` keeps the length; each position holds `d` where the input had `c` and the input's character elsewhere |
| Text.Concat | App.js:18-20 | `join('')` holds exactly the characters found in some piece |
| Text.JoinWith | App.js:17 | `join(sep)`, the inverse used to state that `split` loses nothing: it starts with the first piece, and pieces free of `sep` are joined with one `sep` fewer than there are pieces |
| Text.Split | App.js:17 | `split(sep)` gives one more piece than there are separators, and no piece holds the separator |
| Text.JoinSplit | App.js:17 | joining the pieces of `split(sep)` with `sep` gives the text back, so `Split` loses nothing |
| Text.ConcatSplit | App.js:18 | `join('')` of the pieces of `split(sep)` is the text with every `sep` deleted |
| Text.RemoveAllCounts | App.js:55 | `replaceAll('.', '')` leaves no `.` and keeps the count of every other character |
| Text.ReplaceAllCounts | App.js:55 | `replaceAll(',', '.')` leaves no `,`; the count of `.` becomes the old count of `,` plus `.`; other counts are unchanged |
| Sanitizer.Filter | App.js:16 | the regular-expression filter keeps exactly the digits, `.` and `,` of the typed text |
| Sanitizer.KeepFirst | App.js:17-20 | keeping only the first separator loses no kind of character and shortens the text by the surplus separators |
| Sanitizer.Scan | App.js:16-20 | the one-pass result contains only digits, `.` and `,` |
| Sanitizer.Sanitize | App.js:15-21 | whatever was typed, the field's text has only allowed characters, at most one `,` and at most one `.` |
| Sanitizer.TratarEntrada | App.js:15-21 | the source's filter / split / join steps compute exactly `Sanitize` of the typed text |
| Sanitizer.CollapseIsKeepFirst | App.js:17-20 | one collapse step, with or without its `length > 2` guard taken, keeps the first separator and deletes every later one |
| Sanitizer.KeepFirstBySplit | App.js:18 | when there is a separator, first piece + separator + `join('')` of the rest equals keeping only the first separator |
| Sanitizer.KeepFirstKeepsHead | App.js:18 | the text before the first separator stays intact at the front of the result |
| Sanitizer.KeepFirstUnchanged | App.js:17-20 | with at most one separator of a kind, its collapse changes nothing |
| Sanitizer.KeepFirstCounts | App.js:17-20 | a collapse leaves exactly one separator when there was any, and keeps the count of every other character |
| Sanitizer.FilterThenKeepFirstIsScan | App.js:16-20 | filter, then keep the first `,`, then keep the first `.` equals the one-pass scan, for any separators already seen |
| Sanitizer.ScanCounts | App.js:16-20 | the scan leaves one separator of a kind exactly when the input has one and none was seen before |
| Sanitizer.ScanDigits | App.js:16 | the scan keeps every digit, in order |
| Sanitizer.ScanSubsequence | App.js:16-20 | the scan only deletes characters: its result is a subsequence of the input |
| Sanitizer.ScanUnchanged | App.js:16-20 | text that already meets the rules passes the scan unchanged |
| Sanitizer.SanitizeBySteps | App.js:16-20 | the field's text is keep-first-`.` of keep-first-`,` of the filtered text, in the source's order |
| Sanitizer.SanitizeSeparators | App.js:17-20 | the field holds exactly one `,` if the typed text had at least one, else none; the same for `.` |
| Sanitizer.DotCollapseKeepsCommas | App.js:19-20 | the `.` collapse does not change the number of `,` |
| Sanitizer.SanitizeKeepsDigits | App.js:16-20 | every typed digit is kept in order, nothing is added, and empty input gives empty output |
| Sanitizer.SanitizeFixpoint | App.js:15-20 | the sanitiser leaves a text unchanged if and only if it has only allowed characters and at most one of each separator |
| Sanitizer.SanitizeIdempotent | App.js:15-20 | sanitising the field's own text again changes nothing |
| Sanitizer.SanitizeExemploVirgulas | App.js:16-18 | `7a0,5,kg` becomes `70,5` |
| Sanitizer.SanitizeExemploSeparadores | App.js:16-20 | `1.2.3,4,5` becomes `1.23,45` |
| Sanitizer.SanitizeExemploSoSeparadores | App.js:16-20 | `,,..` becomes `,.` |
| LocaleNumber.ParseFloat | App.js:55 | a parsed number is never negative |
| LocaleNumber.DigitsValuePositive | App.js:55 | a run of digits has a positive value exactly when one of its digits is not `0` |
| LocaleNumber.ParseDigits | App.js:55 | `parseFloat` of digits alone is their value, or NaN when there are none |
| LocaleNumber.ParsePoint | App.js:55 | `parseFloat` of digits, `.` and digits is the whole part plus the fraction over its power of ten; `.` alone is NaN |
| LocaleNumber.DecimalTextShape | App.js:55 | digits with at most one `.` are digits, or digits, `.` and digits |
| LocaleNumber.ParseDecimalText | App.js:55-56 | on digits with at most one `.`, `parseFloat` is NaN exactly when there is no digit, and positive exactly when some digit is not `0` |
| LocaleNumber.NormalizeSeparators | App.js:55 | `Normalize` (the two `replaceAll` calls): after normalisation there is no `,`; the count of `.` equals the input's count of `,`; the digits are unchanged |
| LocaleNumber.NormalizeSanitized | App.js:55 | `Normalize` of a field's text: it normalises to digits with at most one `.` |
| LocaleNumber.DotCollapseKeepsNumber | App.js:19-20 | deleting surplus dots never changes the normalised text, so never the number read |
| LocaleNumber.NatDigits | App.js:82 | the digits written for a whole number are digits, not empty, and have that number's value |
| LocaleNumber.Group | App.js:82 | thousands grouping adds one `.` for each full group of three in front of the last group and no other character |
| LocaleNumber.GroupRemoveDots | App.js:82 | deleting the thousands dots of a grouped number gives its digits back |
| LocaleNumber.NormalizeFormatCents | App.js:82 | `FormatCents`: a formatted amount normalises to its digits, `.`, two fraction digits |
| LocaleNumber.ParseFormatted | App.js:55 | `parseFloat` of a normalised formatted amount is its whole part plus its two fraction digits over 100 |
| LocaleNumber.FormatCentsRoundTrip | App.js:55 | `FormatCents` against `parseFloat`: reading back an amount written with `.` groups, `,` and two decimals gives exactly that amount |
| LocaleNumber.FormatImcPrecision | App.js:82 | `FormatImc`: the index shown reads back within half a hundredth of the computed index |
| Imc.Classificar | App.js:84-89 | the band the `<` chain picks contains the index: its lower limit is inclusive, its upper one exclusive |
| Imc.ClassificarExata | App.js:84-89 | an index lies in a band if and only if the chain picks that band, so exactly one band holds any index |
| Imc.ClassificarMonotona | App.js:84-89 | a larger index never gets a lower band |
| Imc.LimitesInclusivos | App.js:84-89 | 18.5, 25, 30, 35 and 40 fall in the higher band; anything below a limit falls in a lower one |
| Imc.RotuloInjetivo | App.js:84-89 | `Rotulo`: distinct bands are stored in `faixa` as distinct texts |
| Imc.CampoValidoExato | App.js:54-61 | `CampoValido`, the test of App.js:56: a sanitised field is accepted if and only if it holds a digit other than `0` |
| Imc.CampoVazioRejeitado | App.js:56 | the empty field is rejected |
| Imc.SoVirgulaRejeitada | App.js:55-56 | `","` is rejected: it normalises to `.`, which reads as NaN |
| Imc.ZeroRejeitado | App.js:55-56 | `"0"` is rejected: it reads as 0, which is not positive |
| Imc.CampoValidoAceita | App.js:54-61 | `"70,5"` and `"1,75"` are accepted and read as 70.5 and 1.75 |
| Imc.Valor | App.js:72-73 | the number read from a valid field is positive |
| Imc.Indice | App.js:75 | the index is positive, and index times height squared is the weight |
| Imc.MensagemErro | App.js:57 | the alert text ends with the field's name followed by a full stop |
| Imc.MensagemErroDistingue | App.js:57 | two fields get the same alert text if and only if they have the same name |
| Imc.IndiceExemplo | App.js:75-89 | 70.5 over 1.75 squared rounds to 23.02 and falls in `Peso normal` |
| Imc.FormatoExemplo | App.js:82 | 2302 hundredths are written `23,02` |
| Imc.CenarioNormal | App.js:63-92 | weight `70,5` and height `1,75` are valid, give band `Peso normal` and are shown as `23,02` |
| Imc.Calculadora.constructor | App.js:40-44 | all four texts start empty, the result hidden, no alert shown |
| Imc.Calculadora.AlterarPeso | App.js:100-104 | typing in the weight field stores the sanitised text in `peso` and nothing else changes |
| Imc.Calculadora.AlterarAltura | App.js:106-110 | typing in the height field stores the sanitised text in `altura` and nothing else changes |
| Imc.Calculadora.LimparCampos | App.js:46-52 | every text becomes empty and the result is hidden |
| Imc.Calculadora.ValidarCampo | App.js:54-61 | returns the validity of the field, which for a sanitised field holds exactly when it has a digit other than `0`, and records one error message naming the field when it is invalid |
| Imc.Calculadora.MostrarIndice | App.js:82-91 | `imc` becomes the formatted index, `faixa` the label of the band the chain picks, the result is shown, and the state stays valid |
| Imc.Calculadora.CalcularIMC | App.js:63-92 | both fields are validated and each invalid one adds its alert. On failure the result is hidden and `imc`/`faixa` are unchanged. Otherwise `imc` is the formatted index, `faixa` the chain's label and the result is shown. The result is shown exactly when both fields hold a digit other than `0`. The fields stay sanitised |

## Left out

- Rendering, layout, styles, the icon and the static reference table of bands (App.js:6-12, 24-36, 94-226). They are presentation only.
- `Alert.alert` itself is not modelled. Each call appears as one message appended to `alertas`.
- IEEE floating point is not modelled. Numbers are exact reals. The `isNaN(resultado)` guard (App.js:77-80) cannot fire with two positive reals, so it is absent.
- LocaleNumber.ParseFloat: models `parseFloat` only on text without blanks, signs, exponents or `Infinity`. The normalised text of a field never holds those.
- LocaleNumber.FormatImc: rounds the exact real to hundredths, ties upwards, and groups thousands with `.`. It does not reproduce rounding of the binary double. It also does not model the locale library beyond these rules.
- React `useState` batching and re-rendering are not modelled. Each handler is one atomic update of the state.
- Each `CampoNumerico` gets its setter through `aoModificar`. This callback wiring is modelled directly as the two methods `AlterarPeso` and `AlterarAltura`.
