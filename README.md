# CPF validation endpoint, modelled in Dafny

The system is an HTTP function that checks a Brazilian CPF (Cadastro de
Pessoas Físicas) number. It takes a candidate string from the `cpf` query
parameter or, failing that, from the request body. It answers 200 when the
string holds a valid CPF and 400 otherwise. The validator:

1. drops every character that is not an ASCII digit;
2. rejects anything that is not exactly eleven digits, or that is one digit
   repeated eleven times;
3. recomputes the first check digit from digits 0..8 with weights 10..2 and
   compares it with digit 9;
4. recomputes the second check digit from digits 0..9 with weights 11..2 and
   compares it with digit 10.

A check digit is `11 - (sum mod 11)`. When that value is 10 or 11, the check
digit is 0.

Files:

- `cpf_validator.dfy`, module `CpfValidator`. The CPF rule is stated once as
  a specification. `IsValidCpf` normalises the input, applies the length and
  repeated-digit tests, and then compares both check digits with digits 9
  and 10. `WithCheckDigits` is the inverse direction: it appends the two
  check digits to nine digits. The two checksum comparisons accept exactly
  those completions (`ChecksumsIffCompletion`). The validator accepts exactly
  the inputs whose digits are completions of nine digits that are not all
  the same (`IsValidCpf`, `CompletionValid`). `ValidateCpf` is
  the validator as written, with its two accumulation loops and its early
  return after the first mismatch. It is proved to compute `IsValidCpf`.
  The lemmas cover what the rule promises: non-digits are ignored, and the
  sums and check digits are bounded. A further lemma shows that every
  repeated-digit string passes both checksums, so only the explicit
  repeated-digit test rejects it.
- `http_trigger.dfy`, module `CpfHttpTrigger`. This is the handler's
  decision: which text counts as the CPF, and which status and message the
  handler returns.

Line 9 uses `||`, so an empty `cpf=` query value falls through to the body,
just as a missing one does. An empty resolved value then gets the prompt 400
(`ResolveCpf`, `EmptyQueryFallsThrough`).

## Model

| member | source | states |
|---|---|---|
| `CpfValidator.ValidateCpf` | src/functions/httpTriggerCpf.ts:34-59 | The validator returns true exactly when the stripped digits number 11, are not all the same, verifier 1 (digits 0..8, weights 10 - i) equals digit 9, and verifier 2 (digits 0..9, weights 11 - i) equals digit 10 (`IsValidCpf`). So any other length, a repeated digit or a first-verifier mismatch gives false |
| `CpfValidator.IsValidCpf` | src/functions/httpTriggerCpf.ts:34-59 | A valid input has at least eleven characters. An input is valid exactly when its digits are eleven, not all the same, and equal to their first nine digits followed by those digits' two check digits |
| `CpfValidator.AllSameDigit` | src/functions/httpTriggerCpf.ts:37 | A string that matches `^(\d)\1+$` holds only digits. What the test rejects among eleven-digit inputs is proved in `RepeatedDigitsPassChecksums` and `CompletionValid` |
| `CpfValidator.Strip` | src/functions/httpTriggerCpf.ts:35 | Normalisation leaves only ASCII digits and never lengthens the input |
| `CpfValidator.StripNonDigit` | src/functions/httpTriggerCpf.ts:35 | A single character that is not an ASCII digit is removed by normalisation |
| `CpfValidator.StripAppend` | src/functions/httpTriggerCpf.ts:35 | Normalising a concatenation is the concatenation of the normalised parts |
| `CpfValidator.StripDigits` | src/functions/httpTriggerCpf.ts:35 | A string of digits is left unchanged by normalisation |
| `CpfValidator.NonDigitIgnored` | src/functions/httpTriggerCpf.ts:35 | Inserting or removing a non-digit character anywhere never changes validity |
| `CpfValidator.ValidOnDigitsOnly` | src/functions/httpTriggerCpf.ts:35 | Validating the normalised digits gives the same answer as validating the raw input |
| `CpfValidator.DigitValue` | src/functions/httpTriggerCpf.ts:43 | The value parseInt gives a digit character lies in 0..9 |
| `CpfValidator.Weighted` | src/functions/httpTriggerCpf.ts:41-44 | A weighted digit sum with positive weights is never negative |
| `CpfValidator.CheckDigitOf` | src/functions/httpTriggerCpf.ts:46-47 | A verifier is always in 0..9. It is 0 when the sum leaves remainder 0 or 1 mod 11. Otherwise sum plus verifier is a multiple of 11 |
| `CpfValidator.CheckDigit` | src/functions/httpTriggerCpf.ts:41-47 | The verifier of the first n digits (weights n + 1 down to 2) is in 0..9. It is 0 when the weighted sum leaves remainder 0 or 1 mod 11. Otherwise the sum plus the verifier is a multiple of 11 |
| `CpfValidator.PassesChecksums` | src/functions/httpTriggerCpf.ts:41-58 | Eleven digits pass both comparisons only if each weighted sum plus its compared digit (digit 9 for weights 10..2, digit 10 for weights 11..2) leaves remainder 0 or 1 mod 11 |
| `CpfValidator.WithCheckDigits` | src/functions/httpTriggerCpf.ts:41-58 | Completing a base adds exactly two digits and keeps the base as its prefix |
| `CpfValidator.WeightedPrefix` | src/functions/httpTriggerCpf.ts:41-53 | A weighted sum over the first n digits depends only on those n digits |
| `CpfValidator.WeightedBound` | src/functions/httpTriggerCpf.ts:41-53 | A weighted digit sum is at most 9 times the sum of its weights |
| `CpfValidator.SumBounds` | src/functions/httpTriggerCpf.ts:41-53 | The first sum is at most 486 and the second at most 585 |
| `CpfValidator.ChecksumsIffCompletion` | src/functions/httpTriggerCpf.ts:41-58 | Eleven digits pass both verifier comparisons exactly when they equal their first nine digits followed by those digits' two check digits |
| `CpfValidator.WeightedRepeat` | src/functions/httpTriggerCpf.ts:41-53 | The weighted sum of a run of equal digits is that digit times the sum of the weights |
| `CpfValidator.RepeatCheckDigit` | src/functions/httpTriggerCpf.ts:46-56 | For a repeated digit k, the verifiers computed from sums 54k and 65k are both k |
| `CpfValidator.RepeatedDigitsPassChecksums` | src/functions/httpTriggerCpf.ts:37-58 | Each of 00000000000 .. 99999999999 passes both checksums yet is rejected: only the repeated-digit test rejects it |
| `CpfValidator.CompletionValid` | src/functions/httpTriggerCpf.ts:37-58 | Nine digits followed by their two check digits form a valid CPF exactly when the nine digits are not all the same |
| `CpfValidator.ValidExampleChecksums` | src/functions/httpTriggerCpf.ts:41-58 | For 52998224725 both verifiers (2 from sum 295, 5 from sum 347) match digits 9 and 10 |
| `CpfValidator.ValidExample` | src/functions/httpTriggerCpf.ts:34-59 | 52998224725 is valid |
| `CpfValidator.FormattedExample` | src/functions/httpTriggerCpf.ts:35 | 529.982.247-25 is judged exactly as 52998224725 |
| `CpfValidator.InvalidExampleChecksums` | src/functions/httpTriggerCpf.ts:41-58 | For 12345678900 verifier 1 (0, from sum 210) matches digit 9, but verifier 2 (9, from sum 255) does not match digit 10 |
| `CpfValidator.InvalidExample` | src/functions/httpTriggerCpf.ts:34-59 | 12345678900 is invalid |
| `CpfHttpTrigger.HandleRequest` | src/functions/httpTriggerCpf.ts:9-28 | The status is 200 or 400, and it is 200 exactly when the resolved input is a valid CPF. An empty resolved input gets the prompt message. Any other input gets the "O CPF <input> é válido." message with 200 and the "O CPF <input> é inválido." message with 400 |
| `CpfHttpTrigger.ResolveCpf` | src/functions/httpTriggerCpf.ts:9 | A non-empty query value is the CPF; a missing or empty one gives the body. The resolved text is empty exactly when the query value is missing or empty and the body is empty |
| `CpfHttpTrigger.EmptyQueryFallsThrough` | src/functions/httpTriggerCpf.ts:9 | An empty `cpf` query value is treated as a missing one |
| `CpfHttpTrigger.QueryWins` | src/functions/httpTriggerCpf.ts:9 | A non-empty `cpf` query value decides the response whatever the body holds |
| `CpfHttpTrigger.MissingInputScenario` | src/functions/httpTriggerCpf.ts:9-16 | No query parameter and an empty body give 400 with the prompt message |
| `CpfHttpTrigger.ValidQueryScenario` | src/functions/httpTriggerCpf.ts:18-22 | `cpf=52998224725` gives 200 with the message that quotes it as valid |
| `CpfHttpTrigger.FormattedBodyScenario` | src/functions/httpTriggerCpf.ts:9-22 | A body of 529.982.247-25 gives 200, and the message quotes the punctuated text unchanged |
| `CpfHttpTrigger.InvalidQueryScenario` | src/functions/httpTriggerCpf.ts:23-28 | `cpf=12345678900` gives 400 with the message that calls it invalid |

## Left out

- Registration of the function with the hosting framework (`app.http`, lines 61-65). It is configuration with no behaviour to prove.
- The log line and the asynchronous reads of the query parameter and the body (lines 7 and 9). The two values they produce are the inputs `query: Option<string>` and `body: string` of `HandleRequest`.
- The regular expressions at lines 35 and 37 are modelled by their effect only. One is a filter on `'0' <= c <= '9'` (`Strip`). The other is "at least two characters, all the same digit" (`AllSameDigit`). No general regular-expression engine is modelled.
- `parseInt` is modelled only on single digit characters (`DigitValue`), the only arguments the validator gives it.
- JavaScript strings are sequences of UTF-16 code units, and the model's are sequences of Unicode characters. Only the digits `0`-`9` survive normalisation, and the message quotes the input verbatim, so the difference does not change any result.
- `HandleRequest` uses the specification `IsValidCpf` where the handler calls the validator. A Dafny function cannot call a method, and `ValidateCpf` is proved equal to `IsValidCpf`.
- The asynchronous, Promise-returning shape of the handler is not modelled. It has no effect on the response.
