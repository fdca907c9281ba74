/**
 * The decision the HTTP trigger makes for one request: which text it treats
 * as the CPF, and which status and message it answers with.
 *
 * The request's `cpf` query parameter and body text reach the handler through
 * the hosting framework; here they are plain inputs.
 */
module CpfHttpTrigger {
  import opened CpfValidator

  datatype Option<T> = None | Some(value: T)

  datatype Response = Response(status: int, body: string)

  const MissingCpfMessage: string :=
    "Por favor, forneça um CPF válido na query string ou no corpo da requisição."

  function ValidMessage(cpf: string): string {
    "O CPF " + cpf + " é válido."
  }

  function InvalidMessage(cpf: string): string {
    "O CPF " + cpf + " é inválido."
  }

  /**
   * The query value when it is present and not empty, otherwise the body:
   * JavaScript's `||` falls through on both a missing value and "".
   */
  function ResolveCpf(query: Option<string>, body: string): (cpf: string)
    ensures query.Some? && query.value != "" ==> cpf == query.value
    ensures query.None? || query.value == "" ==> cpf == body
    ensures cpf == "" <==> (query.None? || query.value == "") && body == ""
  {
    if query.Some? && query.value != "" then query.value else body
  }

  /** The response to a request with the given query value and body text. */
  function HandleRequest(query: Option<string>, body: string): (r: Response)
    ensures r.status == 200 || r.status == 400
    ensures r.status == 200 <==> IsValidCpf(ResolveCpf(query, body))
    ensures ResolveCpf(query, body) == "" ==> r.body == MissingCpfMessage
    ensures var cpf := ResolveCpf(query, body);
      cpf != "" ==> r.body == (if r.status == 200 then ValidMessage(cpf) else InvalidMessage(cpf))
  {
    var cpf := ResolveCpf(query, body);
    if cpf == "" then
      Response(400, MissingCpfMessage)
    else if IsValidCpf(cpf) then
      Response(200, ValidMessage(cpf))
    else
      Response(400, InvalidMessage(cpf))
  }

  /** An empty query value counts as missing: the body is used instead. */
  lemma EmptyQueryFallsThrough(body: string)
    ensures HandleRequest(Some(""), body) == HandleRequest(None, body)
  {
  }

  /** A non-empty query value wins: the body is then never looked at. */
  lemma QueryWins(cpf: string, body1: string, body2: string)
    requires cpf != ""
    ensures HandleRequest(Some(cpf), body1) == HandleRequest(Some(cpf), body2)
  {
  }

  /** No query parameter and an empty body: 400 asking for a CPF. */
  lemma MissingInputScenario()
    ensures HandleRequest(None, "") == Response(400, MissingCpfMessage)
  {
  }

  /** A valid CPF in the query string: 200, and the message quotes it. */
  lemma ValidQueryScenario(body: string)
    ensures HandleRequest(Some("52998224725"), body) == Response(200, ValidMessage("52998224725"))
  {
    ValidExample();
  }

  /** A punctuated CPF in the body: still 200, and the message quotes it as sent. */
  lemma FormattedBodyScenario()
    ensures HandleRequest(None, "529.982.247-25") == Response(200, ValidMessage("529.982.247-25"))
  {
    ValidExample();
    FormattedExample();
  }

  /** A number that fails the second check digit: 400 with the invalid message. */
  lemma InvalidQueryScenario(body: string)
    ensures HandleRequest(Some("12345678900"), body) == Response(400, InvalidMessage("12345678900"))
  {
    InvalidExample();
  }
}
