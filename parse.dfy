/** The parser of unit-system definitions: the one-token dispatches, the
    grammar of unit entries, the keyword dispatch of entries and the sorting
    of entries into quantities, units and constants. */
module Parse {
  import opened Wrappers
  import opened ParseStream
  import opened ParseTypes

  /** The parsers of unit and quantity expressions. Their grammar is not part
      of this model, so every parser here takes them as given. */
  datatype ExprParsers = ExprParsers(unitExpr: Parser<UnitExpression>, quantityExpr: Parser<QuantityExpression>)

  /** A prefix is an identifier or a literal. */
  function ParsePrefix(ts: seq<Token>): (r: PResult<Prefix>)
    ensures r.Ok? <==> PeekIdent(ts) || PeekLiteral(ts)
    ensures PeekIdent(ts) ==> r == Ok(Parsed(PrefixIdent(ts[0].name), ts[1..]))
    ensures ts != [] && ts[0].Literal? ==> r == Ok(Parsed(PrefixLit(ts[0].text), ts[1..]))
    ensures PeekNegative(ts) ==> r == Ok(Parsed(PrefixLit("-" + ts[1].text), ts[2..]))
    ensures r.Err? ==> r.error == Expected([AnIdent, ALiteral])
    ensures Advances(r, ts)
  {
    if PeekIdent(ts) then
      Ok(Parsed(PrefixIdent(ParseIdent(ts).value.value), ts[1..]))
    else if PeekLiteral(ts) then
      var lit := ParseLiteral(ts).value;
      Ok(Parsed(PrefixLit(lit.value), lit.rest))
    else
      Err(Expected([AnIdent, ALiteral]))
  }

  /** A bracketed, comma-separated list of prefixes. */
  function ParsePrefixes(ts: seq<Token>): (r: PResult<seq<Prefix>>)
    ensures r.Ok? ==> PeekGroup(ts, Bracket) && r.value.rest == ts[1..]
    ensures r.Ok? ==> ParseTerminated(ParsePrefix, ts[0].body) == Ok(r.value.value)
    ensures PeekGroup(ts, Bracket) && ParseTerminated(ParsePrefix, ts[0].body).Ok? ==> r.Ok?
    ensures Advances(r, ts)
  {
    var group :- ParseGroup(ts, Bracket);
    var prefixes :- ParseTerminated(ParsePrefix, group.value);
    Ok(Parsed(prefixes, group.rest))
  }

  /** `ident: value`. */
  function ParseDimensionEntry(ts: seq<Token>): (r: PResult<DimensionEntry>)
    ensures r.Ok? <==> |ts| >= 2 && ts[0].Ident? && ts[1] == Punct(':') && PeekLiteral(ts[2..])
    ensures r.Ok? && ts[2].Literal? ==> r.value == Parsed(DimensionEntry(ts[0].name, ts[2].text), ts[3..])
    ensures r.Ok? && PeekNegative(ts[2..]) ==>
      r.value == Parsed(DimensionEntry(ts[0].name, "-" + ts[3].text), ts[4..])
    ensures Advances(r, ts)
  {
    var ident :- ParseIdent(ts);
    var colon :- ParsePunct(ident.rest, ':');
    assert ident.rest == ts[1..] && colon.rest == ts[2..];
    var value :- ParseLiteral(colon.rest);
    assert |ts| >= 3 ==> ts[2..][1..] == ts[3..];
    assert |ts| >= 4 ==> ts[2..][2..] == ts[4..];
    Ok(Parsed(DimensionEntry(ident.value, value.value), value.rest))
  }

  /** A negative exponent such as `time: -1` is one literal. */
  lemma NegativeDimensionEntry()
    ensures ParseDimensionEntry([Ident("time"), Punct(':'), Punct('-'), Literal("1")]) ==
      Ok(Parsed(DimensionEntry("time", "-1"), []))
  {
    var ts := [Ident("time"), Punct(':'), Punct('-'), Literal("1")];
    assert ts[2..] == [Punct('-'), Literal("1")] && IsNumber("1");
    assert ts[2..][2..] == [] && "-" + "1" == "-1";
  }

  /** A braced, comma-separated list of dimension entries. */
  function ParseDimensions(ts: seq<Token>): (r: PResult<Dimensions>)
    ensures r.Ok? ==> PeekGroup(ts, Brace) && r.value.rest == ts[1..]
    ensures r.Ok? ==> ParseTerminated(ParseDimensionEntry, ts[0].body) == Ok(r.value.value.fields)
    ensures PeekGroup(ts, Brace) && ParseTerminated(ParseDimensionEntry, ts[0].body).Ok? ==> r.Ok?
    ensures Advances(r, ts)
  {
    var group :- ParseGroup(ts, Brace);
    var fields :- ParseTerminated(ParseDimensionEntry, group.value);
    Ok(Parsed(Dimensions(fields), group.rest))
  }

  /** A factor of a unit expression: a unit or quantity name, or a number. */
  function ParseUnitFactor(ts: seq<Token>): (r: PResult<UnitFactor>)
    ensures r.Ok? <==> PeekIdent(ts) || PeekLiteral(ts)
    ensures PeekIdent(ts) ==> r == Ok(Parsed(UnitOrQuantity(ts[0].name), ts[1..]))
    ensures ts != [] && ts[0].Literal? ==> r == Ok(Parsed(Number(ts[0].text), ts[1..]))
    ensures PeekNegative(ts) ==> r == Ok(Parsed(Number("-" + ts[1].text), ts[2..]))
    ensures r.Err? ==> r.error == Expected([AnIdent, ALiteral])
    ensures Advances(r, ts)
  {
    if PeekIdent(ts) then
      Ok(Parsed(UnitOrQuantity(ParseIdent(ts).value.value), ts[1..]))
    else if PeekLiteral(ts) then
      var lit := ParseLiteral(ts).value;
      Ok(Parsed(Number(lit.value), lit.rest))
    else
      Err(Expected([AnIdent, ALiteral]))
  }

  /** A braced group is a list of dimensions; anything else an expression. */
  function ParseQuantityDefinition(ep: ExprParsers, ts: seq<Token>): (r: PResult<QuantityDefinition>)
    ensures PeekGroup(ts, Brace) ==> (r.Ok? <==> ParseDimensions(ts).Ok?)
    ensures PeekGroup(ts, Brace) && r.Ok? ==>
      r.value == Parsed(DimensionsDef(ParseDimensions(ts).value.value), ParseDimensions(ts).value.rest)
    ensures !PeekGroup(ts, Brace) ==> (r.Ok? <==> ep.quantityExpr(ts).Ok?)
    ensures !PeekGroup(ts, Brace) && r.Ok? ==>
      r.value == Parsed(ExpressionDef(ep.quantityExpr(ts).value.value), ep.quantityExpr(ts).value.rest)
    ensures Advances(r, ts)
  {
    if PeekGroup(ts, Brace) then
      var dims :- ParseDimensions(ts);
      Ok(Parsed(DimensionsDef(dims.value), dims.rest))
    else
      var expr :- ep.quantityExpr(ts);
      Ok(Parsed(ExpressionDef(expr.value), expr.rest))
  }

  /** `name = definition`. */
  function ParseQuantityEntry(ep: ExprParsers, ts: seq<Token>): (r: PResult<QuantityEntry>)
    ensures r.Ok? ==> |ts| >= 2 && ts[0].Ident? && ts[1] == Punct('=')
    ensures r.Ok? ==> ParseQuantityDefinition(ep, ts[2..]) == Ok(Parsed(r.value.value.rhs, r.value.rest))
    ensures |ts| >= 2 && ts[0].Ident? && ts[1] == Punct('=') && ParseQuantityDefinition(ep, ts[2..]).Ok? ==> r.Ok?
    ensures r.Ok? ==> r.value.value.name == ts[0].name
    ensures Advances(r, ts)
  {
    var name :- ParseIdent(ts);
    var eq :- ParsePunct(name.rest, '=');
    var rhs :- ParseQuantityDefinition(ep, eq.rest);
    assert eq.rest == ts[2..];
    Ok(Parsed(QuantityEntry(name.value, rhs.value), rhs.rest))
  }

  /** `name = expression`. */
  function ParseConstantEntry(ep: ExprParsers, ts: seq<Token>): (r: PResult<ConstantEntry>)
    ensures r.Ok? ==> |ts| >= 2 && ts[0].Ident? && ts[1] == Punct('=')
    ensures r.Ok? ==> ep.unitExpr(ts[2..]) == Ok(Parsed(r.value.value.rhs, r.value.rest))
    ensures |ts| >= 2 && ts[0].Ident? && ts[1] == Punct('=') && ep.unitExpr(ts[2..]).Ok? ==> r.Ok?
    ensures r.Ok? ==> r.value.value.name == ts[0].name
    ensures Advances(r, ts)
  {
    var name :- ParseIdent(ts);
    var eq :- ParsePunct(name.rest, '=');
    var rhs :- ep.unitExpr(eq.rest);
    assert eq.rest == ts[2..];
    Ok(Parsed(ConstantEntry(name.value, rhs.value), rhs.rest))
  }

  /** The inside of `(name, symbol[, [prefixes]])`: the name, the symbol and
      the prefixes, with nothing left over. */
  function UnitHead(content: seq<Token>): Result<(string, string, seq<Prefix>), ParseError> {
    var name :- ParseIdent(content);
    var comma :- ParsePunct(name.rest, ',');
    var symbol :- ParseLiteral(comma.rest);
    var after := symbol.rest;
    if PeekPunct(after, ',') then
      var prefixes :- ParsePrefixes(after[1..]);
      if prefixes.rest != [] then Err(UnexpectedToken)
      else Ok((name.value, symbol.value, prefixes.value))
    else if after != [] then Err(Expected([APunct(',')]))
    else Ok((name.value, symbol.value, []))
  }

  /** A unit entry: `name` or `(name, symbol[, [prefixes]])`, then `= rhs`. */
  function UnitEntryGrammar(ep: ExprParsers, ts: seq<Token>): (r: PResult<UnitEntry>)
    ensures Advances(r, ts)
  {
    if PeekIdent(ts) then
      var eq :- ParsePunct(ts[1..], '=');
      var rhs :- ep.unitExpr(eq.rest);
      assert eq.rest == ts[2..];
      Ok(Parsed(UnitEntry(ts[0].name, None, [], rhs.value), rhs.rest))
    else if PeekGroup(ts, Parenthesis) then
      var head :- UnitHead(ts[0].body);
      var eq :- ParsePunct(ts[1..], '=');
      var rhs :- ep.unitExpr(eq.rest);
      assert eq.rest == ts[2..];
      Ok(Parsed(UnitEntry(head.0, Some(head.1), head.2, rhs.value), rhs.rest))
    else
      Err(Expected([AnIdent, AGroup(Parenthesis)]))
  }

  /** The unit-entry parser as written: it fills in the name, the symbol and
      the prefixes while moving through the input and the parenthesised group. */
  method ParseUnitEntry(ep: ExprParsers, ts: seq<Token>) returns (r: PResult<UnitEntry>)
    ensures r == UnitEntryGrammar(ep, ts)
  {
    var input := ts;
    var name: string;
    var symbol: Option<string>;
    var prefixes: seq<Prefix> := [];
    if PeekIdent(input) {
      var ident := ParseIdent(input);
      name, input := ident.value.value, ident.value.rest;
      symbol := None;
    } else if PeekGroup(input, Parenthesis) {
      var group := ParseGroup(input, Parenthesis);
      var content;
      content, input := group.value.value, group.value.rest;
      var ident :- ParseIdent(content);
      name, content := ident.value, ident.rest;
      var comma :- ParsePunct(content, ',');
      content := comma.rest;
      var lit :- ParseLiteral(content);
      symbol, content := Some(lit.value), lit.rest;
      if PeekPunct(content, ',') {
        content := ParsePunct(content, ',').value.rest;
        var list :- ParsePrefixes(content);
        prefixes, content := list.value, list.rest;
        if content != [] {
          return Err(UnexpectedToken);
        }
      } else if content != [] {
        return Err(Expected([APunct(',')]));
      }
    } else {
      return Err(Expected([AnIdent, AGroup(Parenthesis)]));
    }
    var eq :- ParsePunct(input, '=');
    input := eq.rest;
    var rhs :- ep.unitExpr(input);
    return Ok(Parsed(UnitEntry(name, symbol, prefixes, rhs.value), rhs.rest));
  }

  /** The message for an entry that starts with an unknown keyword. */
  function UnexpectedKeywordMessage(keyword: string): (m: string)
    ensures "Unexpected identifier: " + keyword <= m
  {
    "Unexpected identifier: " + keyword + ", expected \"def\", \"unit\" or \"constant\""
  }

  /** An entry starts with its keyword: `def`, `unit` or `constant`. */
  function ParseEntry(ep: ExprParsers, ts: seq<Token>): (r: PResult<Entry>)
    ensures Advances(r, ts)
  {
    var keyword :- ParseIdent(ts);
    var k := keyword.value;
    if k == "def" then
      var q :- ParseQuantityEntry(ep, keyword.rest);
      Ok(Parsed(Quantity(q.value), q.rest))
    else if k == "unit" then
      var u :- UnitEntryGrammar(ep, keyword.rest);
      Ok(Parsed(Unit(u.value), u.rest))
    else if k == "constant" then
      var c :- ParseConstantEntry(ep, keyword.rest);
      Ok(Parsed(Constant(c.value), c.rest))
    else
      Err(Custom(UnexpectedKeywordMessage(k)))
  }

  const Keywords: set<string> := {"def", "unit", "constant"}

  /** The keyword selects the kind of entry; any other identifier is an error
      that names it. */
  lemma EntryKeywordDispatch(ep: ExprParsers, ts: seq<Token>)
    ensures !PeekIdent(ts) ==> ParseEntry(ep, ts) == Err(Expected([AnIdent]))
    ensures PeekIdent(ts) && ts[0].name !in Keywords ==>
      ParseEntry(ep, ts) == Err(Custom(UnexpectedKeywordMessage(ts[0].name)))
    ensures ParseEntry(ep, ts).Ok? ==> PeekIdent(ts) && ts[0].name in Keywords
    ensures PeekIdent(ts) && ts[0].name == "def" ==>
      (ParseEntry(ep, ts).Ok? <==> ParseQuantityEntry(ep, ts[1..]).Ok?) &&
      (ParseEntry(ep, ts).Ok? ==>
         ParseEntry(ep, ts).value == Parsed(Quantity(ParseQuantityEntry(ep, ts[1..]).value.value), ParseQuantityEntry(ep, ts[1..]).value.rest))
    ensures PeekIdent(ts) && ts[0].name == "unit" ==>
      (ParseEntry(ep, ts).Ok? <==> UnitEntryGrammar(ep, ts[1..]).Ok?) &&
      (ParseEntry(ep, ts).Ok? ==>
         ParseEntry(ep, ts).value == Parsed(Unit(UnitEntryGrammar(ep, ts[1..]).value.value), UnitEntryGrammar(ep, ts[1..]).value.rest))
    ensures PeekIdent(ts) && ts[0].name == "constant" ==>
      (ParseEntry(ep, ts).Ok? <==> ParseConstantEntry(ep, ts[1..]).Ok?) &&
      (ParseEntry(ep, ts).Ok? ==>
         ParseEntry(ep, ts).value == Parsed(Constant(ParseConstantEntry(ep, ts[1..]).value.value), ParseConstantEntry(ep, ts[1..]).value.rest))
  {
  }

  /** Form 1: a bare name has no symbol and no prefixes, and must be followed
      by `=` and an expression. */
  lemma UnitEntryBareName(ep: ExprParsers, ts: seq<Token>)
    requires PeekIdent(ts)
    ensures UnitEntryGrammar(ep, ts).Ok? <==> PeekPunct(ts[1..], '=') && ep.unitExpr(ts[2..]).Ok?
    ensures UnitEntryGrammar(ep, ts).Ok? ==>
      var e := UnitEntryGrammar(ep, ts).value;
      e.value.name == ts[0].name && e.value.symbol == None && e.value.prefixes == [] &&
      ep.unitExpr(ts[2..]) == Ok(Parsed(e.value.rhs, e.rest))
  {
  }

  /** A unit entry that starts with neither a name nor a parenthesised group is rejected. */
  lemma UnitEntryBadStart(ep: ExprParsers, ts: seq<Token>)
    requires !PeekIdent(ts) && !PeekGroup(ts, Parenthesis)
    ensures UnitEntryGrammar(ep, ts) == Err(Expected([AnIdent, AGroup(Parenthesis)]))
  {
  }

  /** The well-formed insides of `( ... )`: `name, symbol`, optionally followed
      by `, [prefixes]` and nothing else. */
  predicate WellFormedHead(body: seq<Token>, prefixes: seq<Prefix>) {
    |body| >= 2 && body[0].Ident? && body[1] == Punct(',') && PeekLiteral(body[2..]) &&
    var after := ParseLiteral(body[2..]).value.rest;
    ((after == [] && prefixes == []) ||
     (after != [] && after[0] == Punct(',') && ParsePrefixes(after[1..]) == Ok(Parsed(prefixes, []))))
  }

  lemma UnitHeadExact(body: seq<Token>)
    ensures UnitHead(body).Ok? <==> exists prefixes :: WellFormedHead(body, prefixes)
    ensures UnitHead(body).Ok? ==>
      WellFormedHead(body, UnitHead(body).value.2) &&
      UnitHead(body).value.0 == body[0].name && UnitHead(body).value.1 == ParseLiteral(body[2..]).value.value
  {
    if UnitHead(body).Ok? {
      assert WellFormedHead(body, UnitHead(body).value.2);
    }
    if exists prefixes :: WellFormedHead(body, prefixes) {
      var prefixes :| WellFormedHead(body, prefixes);
      assert body[1..][1..][1..] == body[3..];
      if |body| > 3 {
        assert body[3..][1..] == body[4..];
      }
    }
  }

  /** Form 2: `(name, symbol[, [prefixes]]) = rhs`, with nothing else inside
      the parentheses. */
  lemma UnitEntryParenForm(ep: ExprParsers, ts: seq<Token>)
    requires PeekGroup(ts, Parenthesis)
    ensures UnitEntryGrammar(ep, ts).Ok? <==>
      (exists prefixes :: WellFormedHead(ts[0].body, prefixes)) &&
      PeekPunct(ts[1..], '=') && ep.unitExpr(ts[2..]).Ok?
    ensures UnitEntryGrammar(ep, ts).Ok? ==>
      var e := UnitEntryGrammar(ep, ts).value;
      WellFormedHead(ts[0].body, e.value.prefixes) &&
      e.value.name == ts[0].body[0].name && e.value.symbol == Some(ParseLiteral(ts[0].body[2..]).value.value) &&
      ep.unitExpr(ts[2..]) == Ok(Parsed(e.value.rhs, e.rest))
  {
    UnitHeadExact(ts[0].body);
  }

  /** The quantity and dimension types; abstracted to a single identifier. */
  function ParseType(ts: seq<Token>): PResult<string> {
    ParseIdent(ts)
  }

  function EntryParser(ep: ExprParsers): Parser<Entry> {
    (ts: seq<Token>) => ParseEntry(ep, ts)
  }

  /** What the definition reads before sorting: the two types and the entries. */
  datatype DefsSyntax = DefsSyntax(quantityType: string, dimensionType: string, entries: seq<Entry>)

  function ParseDefsSyntax(ep: ExprParsers, ts: seq<Token>): (r: PResult<DefsSyntax>)
    ensures r.Ok? ==>
      |ts| >= 5 && ts[0].Ident? && ts[1] == Punct(',') && ts[2].Ident? && ts[3] == Punct(',') &&
      ts[4].Group? && ts[4].delimiter == Bracket && r.value.rest == ts[5..]
    ensures r.Ok? ==>
      r.value.value.quantityType == ts[0].name && r.value.value.dimensionType == ts[2].name &&
      ParseTerminated(EntryParser(ep), ts[4].body) == Ok(r.value.value.entries)
    ensures (|ts| >= 5 && ts[0].Ident? && ts[1] == Punct(',') && ts[2].Ident? && ts[3] == Punct(',') &&
             ts[4].Group? && ts[4].delimiter == Bracket && ParseTerminated(EntryParser(ep), ts[4].body).Ok?) ==>
      r.Ok?
  {
    var quantityType :- ParseType(ts);
    var c1 :- ParsePunct(quantityType.rest, ',');
    var dimensionType :- ParseType(c1.rest);
    var c2 :- ParsePunct(dimensionType.rest, ',');
    var content :- ParseGroup(c2.rest, Bracket);
    var entries :- ParseTerminated(EntryParser(ep), content.value);
    assert ts[1..][1..][1..][1..] == ts[4..];
    Ok(Parsed(DefsSyntax(quantityType.value, dimensionType.value, entries), content.rest))
  }

  /** The quantity entries, in order. */
  function QuantitiesOf(entries: seq<Entry>): seq<QuantityEntry> {
    if entries == [] then []
    else
      var init := QuantitiesOf(entries[..|entries| - 1]);
      var last := entries[|entries| - 1];
      if last.Quantity? then init + [last.quantity] else init
  }

  /** The unit entries, in order. */
  function UnitsOf(entries: seq<Entry>): seq<UnitEntry> {
    if entries == [] then []
    else
      var init := UnitsOf(entries[..|entries| - 1]);
      var last := entries[|entries| - 1];
      if last.Unit? then init + [last.unit] else init
  }

  /** The constant entries, in order. */
  function ConstantsOf(entries: seq<Entry>): seq<ConstantEntry> {
    if entries == [] then []
    else
      var init := ConstantsOf(entries[..|entries| - 1]);
      var last := entries[|entries| - 1];
      if last.Constant? then init + [last.constant] else init
  }

  /** Every entry lands in exactly one of the three lists. */
  lemma {:induction false} PartitionLengths(entries: seq<Entry>)
    ensures |QuantitiesOf(entries)| + |UnitsOf(entries)| + |ConstantsOf(entries)| == |entries|
  {
    if entries != [] {
      PartitionLengths(entries[..|entries| - 1]);
    }
  }

  /** Sorting keeps relative order: the lists of a concatenation are the
      concatenations of the lists. */
  lemma {:induction false} PartitionAppend(a: seq<Entry>, b: seq<Entry>)
    ensures QuantitiesOf(a + b) == QuantitiesOf(a) + QuantitiesOf(b)
    ensures UnitsOf(a + b) == UnitsOf(a) + UnitsOf(b)
    ensures ConstantsOf(a + b) == ConstantsOf(a) + ConstantsOf(b)
  {
    if b == [] {
      assert a + b == a;
    } else {
      assert (a + b)[..|a + b| - 1] == a + b[..|b| - 1];
      assert (a + b)[|a + b| - 1] == b[|b| - 1];
      PartitionAppend(a, b[..|b| - 1]);
    }
  }

  /** An entry of each kind is in its list, and each list holds only such entries. */
  lemma {:induction false} PartitionMembers(entries: seq<Entry>, q: QuantityEntry, u: UnitEntry, c: ConstantEntry)
    ensures q in QuantitiesOf(entries) <==> Quantity(q) in entries
    ensures u in UnitsOf(entries) <==> Unit(u) in entries
    ensures c in ConstantsOf(entries) <==> Constant(c) in entries
  {
    if entries != [] {
      var init := entries[..|entries| - 1];
      PartitionMembers(init, q, u, c);
      assert entries == init + [entries[|entries| - 1]];
    }
  }

  /** `Defs::parse`: reads the header and the entry list, then sorts the
      entries into quantities, units and constants. */
  method ParseDefs(ep: ExprParsers, ts: seq<Token>) returns (r: PResult<Defs>)
    ensures r.Ok? <==> ParseDefsSyntax(ep, ts).Ok?
    ensures r.Err? ==> r.error == ParseDefsSyntax(ep, ts).error
    ensures r.Ok? ==>
      var s := ParseDefsSyntax(ep, ts).value;
      r.value.rest == s.rest &&
      r.value.value == Defs(s.value.dimensionType, s.value.quantityType,
                            QuantitiesOf(s.value.entries), UnitsOf(s.value.entries), ConstantsOf(s.value.entries))
  {
    var syntax :- ParseDefsSyntax(ep, ts);
    var entries := syntax.value.entries;
    var quantities: seq<QuantityEntry> := [];
    var units: seq<UnitEntry> := [];
    var constants: seq<ConstantEntry> := [];
    for k := 0 to |entries|
      invariant quantities == QuantitiesOf(entries[..k])
      invariant units == UnitsOf(entries[..k])
      invariant constants == ConstantsOf(entries[..k])
    {
      assert entries[..k + 1][..k] == entries[..k];
      match entries[k]
      case Quantity(q) => quantities := quantities + [q];
      case Unit(u) => units := units + [u];
      case Constant(c) => constants := constants + [c];
    }
    assert entries[..|entries|] == entries;
    return Ok(Parsed(Defs(syntax.value.dimensionType, syntax.value.quantityType, quantities, units, constants), syntax.rest));
  }
}
