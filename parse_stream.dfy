/** The token streams the definition parser reads, and the handful of
    primitive parsers it takes from its parsing library: single tokens,
    delimited groups and comma-separated lists. A stream position is the
    sequence of tokens not yet consumed. */
module ParseStream {
  import opened Wrappers

  datatype Delimiter = Parenthesis | Bracket | Brace

  /** A token tree: a delimited group holds the tokens between its delimiters. */
  datatype Token =
    | Ident(name: string)
    | Literal(text: string)
    | Punct(ch: char)
    | Group(delimiter: Delimiter, body: seq<Token>)

  /** What a failed lookahead or a failed token parse reports as expected. */
  datatype Expectation = AnIdent | ALiteral | APunct(ch: char) | AGroup(delimiter: Delimiter)

  datatype ParseError =
    | Expected(alternatives: seq<Expectation>)
    | UnexpectedToken
    | Custom(message: string)

  /** A parsed value and the tokens after it. */
  datatype Parsed<T> = Parsed(value: T, rest: seq<Token>)

  type PResult<T> = Result<Parsed<T>, ParseError>

  /** A successful parse consumed at least one token. */
  predicate Advances<T>(r: PResult<T>, ts: seq<Token>) {
    r.Ok? ==> |r.value.rest| < |ts|
  }

  /** A parser that consumes input whenever it succeeds. */
  type Parser<T> = p: seq<Token> -> PResult<T> | forall ts :: Advances(p(ts), ts)
    witness (ts: seq<Token>) => Err(Expected([]))

  predicate PeekIdent(ts: seq<Token>) {
    ts != [] && ts[0].Ident?
  }

  /** Integer and floating-point literals start with a digit; string, char
      and byte literals do not. */
  predicate IsNumber(text: string) {
    text != [] && '0' <= text[0] <= '9'
  }

  /** A minus sign followed by a numeric literal: the literal parser reads the
      two tokens as one negative literal. */
  predicate PeekNegative(ts: seq<Token>) {
    |ts| >= 2 && ts[0] == Punct('-') && ts[1].Literal? && IsNumber(ts[1].text)
  }

  predicate PeekLiteral(ts: seq<Token>) {
    (ts != [] && ts[0].Literal?) || PeekNegative(ts)
  }

  predicate PeekPunct(ts: seq<Token>, c: char) {
    ts != [] && ts[0] == Punct(c)
  }

  predicate PeekGroup(ts: seq<Token>, d: Delimiter) {
    ts != [] && ts[0].Group? && ts[0].delimiter == d
  }

  function ParseIdent(ts: seq<Token>): (r: PResult<string>)
    ensures r.Ok? <==> PeekIdent(ts)
    ensures r.Ok? ==> r.value == Parsed(ts[0].name, ts[1..])
    ensures r.Err? ==> r.error == Expected([AnIdent])
  {
    if PeekIdent(ts) then Ok(Parsed(ts[0].name, ts[1..])) else Err(Expected([AnIdent]))
  }

  /** A literal: one literal token, or a minus sign and a numeric literal,
      whose text is then the negated number. */
  function ParseLiteral(ts: seq<Token>): (r: PResult<string>)
    ensures r.Ok? <==> PeekLiteral(ts)
    ensures ts != [] && ts[0].Literal? ==> r == Ok(Parsed(ts[0].text, ts[1..]))
    ensures PeekNegative(ts) ==> r == Ok(Parsed("-" + ts[1].text, ts[2..]))
    ensures r.Err? ==> r.error == Expected([ALiteral])
    ensures Advances(r, ts)
  {
    if ts != [] && ts[0].Literal? then Ok(Parsed(ts[0].text, ts[1..]))
    else if PeekNegative(ts) then Ok(Parsed("-" + ts[1].text, ts[2..]))
    else Err(Expected([ALiteral]))
  }

  function ParsePunct(ts: seq<Token>, c: char): (r: PResult<()>)
    ensures r.Ok? <==> PeekPunct(ts, c)
    ensures r.Ok? ==> r.value.rest == ts[1..]
    ensures r.Err? ==> r.error == Expected([APunct(c)])
  {
    if PeekPunct(ts, c) then Ok(Parsed((), ts[1..])) else Err(Expected([APunct(c)]))
  }

  /** Enters a delimited group: the value is the group's content. */
  function ParseGroup(ts: seq<Token>, d: Delimiter): (r: PResult<seq<Token>>)
    ensures r.Ok? <==> PeekGroup(ts, d)
    ensures r.Ok? ==> r.value == Parsed(ts[0].body, ts[1..])
    ensures r.Err? ==> r.error == Expected([AGroup(d)])
  {
    if PeekGroup(ts, d) then Ok(Parsed(ts[0].body, ts[1..])) else Err(Expected([AGroup(d)]))
  }

  /** Parses all of `ts` as items separated by commas, with an optional
      trailing comma. */
  function ParseTerminated<T>(p: Parser<T>, ts: seq<Token>): (r: Result<seq<T>, ParseError>)
    ensures ts == [] ==> r == Ok([])
    ensures r.Ok? && ts != [] ==> r.value != [] && p(ts).Ok? && r.value[0] == p(ts).value.value
    decreases |ts|
  {
    if ts == [] then Ok([])
    else
      var first :- p(ts);
      if first.rest == [] then Ok([first.value])
      else
        var comma :- ParsePunct(first.rest, ',');
        var more :- ParseTerminated(p, comma.rest);
        Ok([first.value] + more)
  }
}
