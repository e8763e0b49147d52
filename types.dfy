/** The verified-but-unresolved definitions of a unit system and the expansion
    of unit templates (one declaration with prefixes and aliases) into
    concrete unit entries. */
module Types {
  import opened Wrappers
  import E = Expression

  /** An identifier, by its text (spans are not modelled). */
  type Ident = string

  /** Stands for an `f64` magnitude; the core copies these, never computes with them. */
  type F64 = real

  /** The factor used for an alias without a prefix. */
  const NoPrefixFactor: F64 := 1.0

  /** A factor of a definition: a concrete value or a reference to another entry. */
  datatype Factor<C> = Concrete(c: C) | Other(ident: Ident)

  /** Transforms the concrete value of a factor and keeps references. */
  function MapConcrete<C1, C2>(factor: Factor<C1>, f: C1 -> C2): (r: Factor<C2>)
    ensures factor.Concrete? <==> r.Concrete?
    ensures factor.Concrete? ==> r.c == f(factor.c)
    ensures factor.Other? ==> r.ident == factor.ident
  {
    match factor
    case Concrete(c1) => Concrete(f(c1))
    case Other(x) => Other(x)
  }

  lemma MapConcreteIdentity<C>(factor: Factor<C>)
    ensures MapConcrete(factor, (c: C) => c) == factor
  {
  }

  lemma MapConcreteComposes<C1, C2, C3>(factor: Factor<C1>, f: C1 -> C2, g: C2 -> C3)
    ensures MapConcrete(MapConcrete(factor, f), g) == MapConcrete(factor, (c: C1) => g(f(c)))
  {
  }

  /** The unit value `One` of dimension factors. */
  datatype One = One

  /** Either "this is a base dimension/unit" or a defining expression. */
  datatype Definition<B, C> = Base(base: B) | Expression(expr: E.Expr<Factor<C>>)

  datatype DimensionEntry = DimensionEntry(name: Ident, rhs: Definition<(), One>)

  predicate IsBaseDimension(d: DimensionEntry)
    ensures IsBaseDimension(d) <==> d.rhs == Base(())
    ensures !IsBaseDimension(d) <==> d.rhs.Expression?
  {
    match d.rhs
    case Base(u) => assert u == (); true
    case Expression(_) => false
  }

  datatype Alias = Alias(name: Ident)

  datatype Symbol = Symbol(text: Ident)

  /** A unit prefix such as "kilo": its name fragment, its short form and its
      multiplier. How these are derived from the written prefix is not part of
      this model, so they are plain fields. */
  datatype Prefix = Prefix(name: string, short: string, factor: F64)

  datatype ConstantEntry = ConstantEntry(
    name: Ident,
    rhs: E.Expr<Factor<F64>>,
    dimensionAnnotation: Option<Ident>)

  datatype UnitTemplate = UnitTemplate(
    name: Ident,
    symbol: Option<Symbol>,
    aliases: seq<Alias>,
    prefixes: seq<Prefix>,
    dimensionAnnotation: Option<Ident>,
    definition: Definition<Ident, F64>)

  datatype UnitEntry = UnitEntry(
    name: Ident,
    symbol: Option<Symbol>,
    dimensionAnnotation: Option<Ident>,
    definition: Definition<Ident, F64>,
    autogeneratedFrom: Option<Ident>)

  /** The name an alias (if any) or the template gives before the prefix is applied. */
  function BaseName(t: UnitTemplate, alias: Option<Alias>): Ident {
    if alias.Some? then alias.value.name else t.name
  }

  /** The prefix name, when there is one, followed by the alias or template name. */
  function FormatName(t: UnitTemplate, prefix: Option<Prefix>, alias: Option<Alias>): (r: Ident)
    ensures prefix.None? ==> r == BaseName(t, alias)
    ensures prefix.Some? ==>
      |r| == |prefix.value.name| + |BaseName(t, alias)| &&
      prefix.value.name <= r && r[|prefix.value.name|..] == BaseName(t, alias)
  {
    var name := BaseName(t, alias);
    match prefix
    case None => name
    case Some(p) => p.name + name
  }

  /** Only entries without an alias get a symbol: the prefix's short form, if
      any, followed by the template's symbol, if it has one. */
  function FormatSymbol(t: UnitTemplate, prefix: Option<Prefix>, alias: Option<Alias>): (r: Option<Symbol>)
    ensures alias.Some? ==> r.None?
    ensures alias.None? && prefix.None? ==> r == t.symbol
    ensures alias.None? && prefix.Some? ==>
      (r.Some? <==> t.symbol.Some?) &&
      (r.Some? ==> r.value.text == prefix.value.short + t.symbol.value.text)
  {
    if alias.Some? then None
    else
      match prefix
      case None => t.symbol
      case Some(p) =>
        match t.symbol
        case None => None
        case Some(s) => Some(Symbol(p.short + s.text))
  }

  /** The expression `factor * name`, with `factor` a concrete value and `name`
      a reference. */
  function Scaled(factor: F64, name: Ident): Definition<Ident, F64> {
    Expression(E.Binary(E.Expr.Value(E.Factor.Value(Concrete(factor))),
                        E.Factor.Value(Other(name)), E.Mul))
  }

  /** The canonical entry keeps the template's definition; every other entry is
      the prefix factor (1.0 without a prefix) times the template itself. */
  function GetDefinition(t: UnitTemplate, prefix: Option<Prefix>, alias: Option<Alias>): (r: Definition<Ident, F64>)
    ensures prefix.None? && alias.None? ==> r == t.definition
    ensures prefix.Some? ==> r == Scaled(prefix.value.factor, t.name)
    ensures prefix.None? && alias.Some? ==> r == Scaled(NoPrefixFactor, t.name)
  {
    var factor := if prefix.Some? then prefix.value.factor else NoPrefixFactor;
    if alias.None? && prefix.None? then t.definition
    else Scaled(factor, t.name)
  }

  function ExpandPrefixAndAlias(t: UnitTemplate, prefix: Option<Prefix>, alias: Option<Alias>): (r: UnitEntry)
    ensures r.name == FormatName(t, prefix, alias)
    ensures r.symbol == FormatSymbol(t, prefix, alias)
    ensures r.definition == GetDefinition(t, prefix, alias)
    ensures r.dimensionAnnotation == t.dimensionAnnotation
    ensures r.autogeneratedFrom.Some? <==> prefix.Some? || alias.Some?
    ensures r.autogeneratedFrom.Some? ==> r.autogeneratedFrom.value == t.name
  {
    UnitEntry(
      FormatName(t, prefix, alias),
      FormatSymbol(t, prefix, alias),
      t.dimensionAnnotation,
      GetDefinition(t, prefix, alias),
      if prefix.Some? || alias.Some? then Some(t.name) else None)
  }

  /** The entry a template stands for when it has neither prefix nor alias. */
  function Canonical(t: UnitTemplate): UnitEntry {
    UnitEntry(t.name, t.symbol, t.dimensionAnnotation, t.definition, None)
  }

  lemma CanonicalEntry(t: UnitTemplate)
    ensures ExpandPrefixAndAlias(t, None, None) == Canonical(t)
  {
  }

  /** Every element wrapped in `Some`, followed by `None`. */
  function Options<T>(xs: seq<T>): (r: seq<Option<T>>)
    ensures |r| == |xs| + 1
    ensures forall i :: 0 <= i < |xs| ==> r[i] == Some(xs[i])
    ensures r[|xs|] == None
  {
    seq(|xs|, i requires 0 <= i < |xs| => Some(xs[i])) + [None]
  }

  /** The entries for one prefix option, one per alias option, in order. */
  function Row(t: UnitTemplate, prefix: Option<Prefix>, aliases: seq<Option<Alias>>): (r: seq<UnitEntry>)
    ensures |r| == |aliases|
    ensures forall j :: 0 <= j < |aliases| ==> r[j] == ExpandPrefixAndAlias(t, prefix, aliases[j])
  {
    seq(|aliases|, j requires 0 <= j < |aliases| => ExpandPrefixAndAlias(t, prefix, aliases[j]))
  }

  /** The rows of all prefix options, one after the other (prefix-major). */
  function Rows(t: UnitTemplate, prefixes: seq<Option<Prefix>>, aliases: seq<Option<Alias>>): seq<UnitEntry>
  {
    if prefixes == [] then []
    else Rows(t, prefixes[..|prefixes| - 1], aliases) + Row(t, prefixes[|prefixes| - 1], aliases)
  }

  /** What `expand` returns for a template. */
  function Expansion(t: UnitTemplate): seq<UnitEntry> {
    Rows(t, Options(t.prefixes), Options(t.aliases))
  }

  lemma MulStep(i: int, n: int, m: int)
    requires 0 <= i < n && m >= 0
    ensures i * m + m <= n * m
  {
    assert (n - i) * m >= m by {
      assert n - i >= 1;
    }
  }

  lemma {:induction false} RowsAt(t: UnitTemplate, prefixes: seq<Option<Prefix>>, aliases: seq<Option<Alias>>, i: nat, j: nat)
    requires i < |prefixes| && j < |aliases|
    ensures |Rows(t, prefixes, aliases)| == |prefixes| * |aliases|
    ensures i * |aliases| + j < |prefixes| * |aliases|
    ensures Rows(t, prefixes, aliases)[i * |aliases| + j] == ExpandPrefixAndAlias(t, prefixes[i], aliases[j])
  {
    RowsLength(t, prefixes, aliases);
    var n, m := |prefixes|, |aliases|;
    var init := prefixes[..n - 1];
    MulStep(i, n, m);
    RowsLength(t, init, aliases);
    assert (n - 1) * m == n * m - m;
    if i == n - 1 {
      assert i * m + j == |Rows(t, init, aliases)| + j;
    } else {
      assert init[i] == prefixes[i];
      MulStep(i, n - 1, m);
      RowsAt(t, init, aliases, i, j);
    }
  }

  lemma {:induction false} RowsLength(t: UnitTemplate, prefixes: seq<Option<Prefix>>, aliases: seq<Option<Alias>>)
    ensures |Rows(t, prefixes, aliases)| == |prefixes| * |aliases|
  {
    if prefixes != [] {
      RowsLength(t, prefixes[..|prefixes| - 1], aliases);
      assert (|prefixes| - 1) * |aliases| + |aliases| == |prefixes| * |aliases|;
    }
  }

  /** Splits an index below n * m into a row below n and a column below m. */
  lemma DivModIndex(k: nat, n: nat, m: nat)
    requires m > 0 && k < n * m
    ensures k == (k / m) * m + k % m
    ensures 0 <= k % m < m && 0 <= k / m < n
  {
    var i := k / m;
    if i >= n {
      MulMonotone(n, i, m);
    }
  }

  lemma MulMonotone(a: nat, b: nat, m: nat)
    requires a <= b
    ensures a * m <= b * m
  {
    assert b * m == a * m + (b - a) * m;
  }

  lemma DivModUnique(k: nat, m: nat, q: nat, r: nat)
    requires 0 <= r < m && k == q * m + r
    ensures k / m == q && k % m == r
  {
    DivModIndex(k, q + 1, m);
    var q', r' := k / m, k % m;
    if q' < q {
      MulMonotone(q' + 1, q, m);
    }
  }

  /** Entry `k` of an expansion pairs prefix option `i` with alias option `j`,
      where k = i * (|A| + 1) + j; only the last entry pairs "no prefix" with
      "no alias". */
  lemma ExpansionIndex(t: UnitTemplate, k: nat) returns (i: nat, j: nat)
    requires k < |Expansion(t)|
    ensures |Expansion(t)| == (|t.prefixes| + 1) * (|t.aliases| + 1)
    ensures i <= |t.prefixes| && j <= |t.aliases|
    ensures k == i * (|t.aliases| + 1) + j
    ensures Expansion(t)[k] == ExpandPrefixAndAlias(t, Options(t.prefixes)[i], Options(t.aliases)[j])
    ensures i == |t.prefixes| && j == |t.aliases| <==> k == |Expansion(t)| - 1
  {
    var n, m := |t.prefixes| + 1, |t.aliases| + 1;
    RowsLength(t, Options(t.prefixes), Options(t.aliases));
    i, j := SplitIndex(k, n, m);
    RowsAt(t, Options(t.prefixes), Options(t.aliases), i, j);
    LastIndex(k, n, m, i, j);
  }

  /** An index below n * m as a row below n and a column below m. */
  lemma SplitIndex(k: nat, n: nat, m: nat) returns (i: nat, j: nat)
    requires m > 0 && k < n * m
    ensures i < n && j < m && k == i * m + j
  {
    DivModIndex(k, n, m);
    i, j := k / m, k % m;
  }

  /** Cell (i, j) of an n-by-m grid is the last one exactly when it is at index n * m - 1. */
  lemma LastIndex(k: nat, n: nat, m: nat, i: nat, j: nat)
    requires i < n && j < m && k == i * m + j
    ensures i == n - 1 && j == m - 1 <==> k == n * m - 1
  {
    assert (n - 1) * m + (m - 1) == n * m - 1;
    if k == n * m - 1 {
      DivModUnique(k, m, i, j);
      DivModUnique(k, m, n - 1, m - 1);
    }
  }

  /** `expand` yields (|P| + 1) * (|A| + 1) entries, prefix-major. */
  lemma ExpansionShape(t: UnitTemplate, i: nat, j: nat)
    requires i <= |t.prefixes| && j <= |t.aliases|
    ensures |Expansion(t)| == (|t.prefixes| + 1) * (|t.aliases| + 1)
    ensures i * (|t.aliases| + 1) + j < |Expansion(t)|
    ensures Expansion(t)[i * (|t.aliases| + 1) + j] ==
      ExpandPrefixAndAlias(t, Options(t.prefixes)[i], Options(t.aliases)[j])
  {
    RowsAt(t, Options(t.prefixes), Options(t.aliases), i, j);
  }

  /** The canonical entry comes last, and it is the only entry without provenance. */
  lemma ExpansionCanonicalLast(t: UnitTemplate, k: nat)
    requires k < |Expansion(t)|
    ensures Expansion(t)[|Expansion(t)| - 1] == Canonical(t)
    ensures Expansion(t)[k].autogeneratedFrom.None? <==> k == |Expansion(t)| - 1
  {
    var last := |Expansion(t)| - 1;
    var i, j := ExpansionIndex(t, last);
    i, j := ExpansionIndex(t, k);
  }

  /** Every entry other than the canonical one records the template it came
      from and is defined as a multiple of the template. */
  lemma ExpansionRefersToTemplate(t: UnitTemplate, k: nat)
    requires k < |Expansion(t)| - 1
    ensures Expansion(t)[k].autogeneratedFrom == Some(t.name)
    ensures exists factor :: Expansion(t)[k].definition == Scaled(factor, t.name)
  {
    ExpansionCanonicalLast(t, k);
    var i, j := ExpansionIndex(t, k);
    var p := Options(t.prefixes)[i];
    if p.Some? {
      assert Expansion(t)[k].definition == Scaled(p.value.factor, t.name);
    } else {
      assert Expansion(t)[k].definition == Scaled(NoPrefixFactor, t.name);
    }
  }

  /** Only entries with the "no alias" option (the last of each row) may carry a symbol. */
  lemma ExpansionSymbolOnlyUnaliased(t: UnitTemplate, k: nat)
    requires k < |Expansion(t)|
    ensures Expansion(t)[k].symbol.Some? ==> k % (|t.aliases| + 1) == |t.aliases|
    ensures k % (|t.aliases| + 1) == |t.aliases| ==> (Expansion(t)[k].symbol.Some? <==> t.symbol.Some?)
  {
    var i, j := ExpansionIndex(t, k);
    DivModUnique(k, |t.aliases| + 1, i, j);
  }

  /** The number of entries that carry a symbol. */
  function CountSymbols(entries: seq<UnitEntry>): nat {
    if entries == [] then 0
    else CountSymbols(entries[..|entries| - 1]) + (if entries[|entries| - 1].symbol.Some? then 1 else 0)
  }

  lemma {:induction false} CountSymbolsAppend(a: seq<UnitEntry>, b: seq<UnitEntry>)
    ensures CountSymbols(a + b) == CountSymbols(a) + CountSymbols(b)
  {
    if b == [] {
      assert a + b == a;
    } else {
      assert (a + b)[..|a + b| - 1] == a + b[..|b| - 1];
      assert (a + b)[|a + b| - 1] == b[|b| - 1];
      CountSymbolsAppend(a, b[..|b| - 1]);
    }
  }

  lemma {:induction false} CountSymbolsNone(entries: seq<UnitEntry>)
    requires forall k :: 0 <= k < |entries| ==> entries[k].symbol.None?
    ensures CountSymbols(entries) == 0
  {
    if entries != [] {
      CountSymbolsNone(entries[..|entries| - 1]);
    }
  }

  lemma {:induction false} CountSymbolsRows(t: UnitTemplate, prefixes: seq<Option<Prefix>>)
    ensures CountSymbols(Rows(t, prefixes, Options(t.aliases))) ==
      if t.symbol.Some? then |prefixes| else 0
  {
    if prefixes != [] {
      var aliases := Options(t.aliases);
      var row := Row(t, prefixes[|prefixes| - 1], aliases);
      CountSymbolsRows(t, prefixes[..|prefixes| - 1]);
      CountSymbolsAppend(Rows(t, prefixes[..|prefixes| - 1], aliases), row);
      CountSymbolsNone(row[..|row| - 1]);
      assert row == row[..|row| - 1] + [row[|row| - 1]];
      CountSymbolsAppend(row[..|row| - 1], [row[|row| - 1]]);
    }
  }

  /** Exactly |P| + 1 entries carry a symbol when the template has one, none otherwise. */
  lemma ExpansionSymbolCount(t: UnitTemplate)
    ensures CountSymbols(Expansion(t)) == if t.symbol.Some? then |t.prefixes| + 1 else 0
  {
    CountSymbolsRows(t, Options(t.prefixes));
  }

  lemma RowSnoc(t: UnitTemplate, prefix: Option<Prefix>, aliases: seq<Option<Alias>>, j: nat)
    requires j < |aliases|
    ensures Row(t, prefix, aliases[..j + 1]) == Row(t, prefix, aliases[..j]) + [ExpandPrefixAndAlias(t, prefix, aliases[j])]
  {
  }

  lemma RowsSnoc(t: UnitTemplate, prefixes: seq<Option<Prefix>>, aliases: seq<Option<Alias>>, i: nat)
    requires i < |prefixes|
    ensures Rows(t, prefixes[..i + 1], aliases) == Rows(t, prefixes[..i], aliases) + Row(t, prefixes[i], aliases)
  {
    assert prefixes[..i + 1][..i] == prefixes[..i];
  }

  /** `expand`: the prefix options (P, then "no prefix") drive the outer loop,
      the alias options (A, then "no alias") the inner loop. */
  method Expand(t: UnitTemplate) returns (entries: seq<UnitEntry>)
    ensures entries == Expansion(t)
    ensures |entries| == (|t.prefixes| + 1) * (|t.aliases| + 1)
  {
    var prefixes := seq(|t.prefixes|, i requires 0 <= i < |t.prefixes| => Some(t.prefixes[i]));
    prefixes := prefixes + [None];
    var aliases := seq(|t.aliases|, j requires 0 <= j < |t.aliases| => Some(t.aliases[j]));
    aliases := aliases + [None];
    assert prefixes == Options(t.prefixes);
    assert aliases == Options(t.aliases);
    entries := [];
    var i := 0;
    while i < |prefixes|
      invariant 0 <= i <= |prefixes|
      invariant entries == Rows(t, prefixes[..i], aliases)
    {
      var j := 0;
      while j < |aliases|
        invariant 0 <= j <= |aliases|
        invariant entries == Rows(t, prefixes[..i], aliases) + Row(t, prefixes[i], aliases[..j])
      {
        RowSnoc(t, prefixes[i], aliases, j);
        entries := entries + [ExpandPrefixAndAlias(t, prefixes[i], aliases[j])];
        j := j + 1;
      }
      assert aliases[..j] == aliases;
      RowsSnoc(t, prefixes, aliases, i);
      i := i + 1;
    }
    assert prefixes[..i] == prefixes;
    RowsLength(t, prefixes, aliases);
  }

  /** The definitions before and after template expansion. */
  datatype Unresolved<U> = Unresolved(
    dimensionTypes: seq<Ident>,
    quantityTypes: seq<Ident>,
    dimensions: seq<DimensionEntry>,
    units: seq<U>,
    constants: seq<ConstantEntry>)

  /** The expansions of the templates concatenated in order. */
  function ExpandAll(templates: seq<UnitTemplate>): seq<UnitEntry> {
    if templates == [] then []
    else Expansion(templates[0]) + ExpandAll(templates[1..])
  }

  function ExpandTemplates(defs: Unresolved<UnitTemplate>): (r: Unresolved<UnitEntry>)
    ensures r.dimensionTypes == defs.dimensionTypes
    ensures r.quantityTypes == defs.quantityTypes
    ensures r.dimensions == defs.dimensions
    ensures r.constants == defs.constants
    ensures r.units == ExpandAll(defs.units)
  {
    Unresolved(defs.dimensionTypes, defs.quantityTypes, defs.dimensions,
               ExpandAll(defs.units), defs.constants)
  }

  /** Expanding a concatenation of template lists concatenates their expansions. */
  lemma {:induction false} ExpandAllAppend(a: seq<UnitTemplate>, b: seq<UnitTemplate>)
    ensures ExpandAll(a + b) == ExpandAll(a) + ExpandAll(b)
  {
    if a == [] {
      assert a + b == b;
    } else {
      assert (a + b)[0] == a[0];
      assert (a + b)[1..] == a[1..] + b;
      ExpandAllAppend(a[1..], b);
    }
  }

  /** The number of entries all templates expand to. */
  function ExpansionCount(templates: seq<UnitTemplate>): nat {
    if templates == [] then 0
    else (|templates[0].prefixes| + 1) * (|templates[0].aliases| + 1) + ExpansionCount(templates[1..])
  }

  lemma {:induction false} ExpandAllLength(templates: seq<UnitTemplate>)
    ensures |ExpandAll(templates)| == ExpansionCount(templates)
  {
    if templates != [] {
      RowsLength(templates[0], Options(templates[0].prefixes), Options(templates[0].aliases));
      ExpandAllLength(templates[1..]);
    }
  }

  /** An expanded unit comes from exactly the expansion of some template, and
      every expansion of every template is present. */
  lemma {:induction false} ExpandAllMembers(templates: seq<UnitTemplate>, u: UnitEntry)
    ensures u in ExpandAll(templates) <==> exists k :: 0 <= k < |templates| && u in Expansion(templates[k])
  {
    if templates != [] {
      ExpandAllMembers(templates[1..], u);
      if u in Expansion(templates[0]) {
        assert 0 < |templates|;
      }
      if exists k :: 0 <= k < |templates| && u in Expansion(templates[k]) {
        var k :| 0 <= k < |templates| && u in Expansion(templates[k]);
        if k > 0 {
          assert templates[1..][k - 1] == templates[k];
        }
      }
    }
  }

  /** The entries without provenance after expansion are exactly the canonical
      entries of the templates. */
  lemma ExpansionUnprovenanced(t: UnitTemplate, u: UnitEntry)
    ensures u in Expansion(t) && u.autogeneratedFrom.None? <==> u == Canonical(t)
  {
    var n, m := |t.prefixes| + 1, |t.aliases| + 1;
    ExpansionShape(t, n - 1, m - 1);
    ExpansionCanonicalLast(t, |Expansion(t)| - 1);
    if u in Expansion(t) && u.autogeneratedFrom.None? {
      var k :| 0 <= k < |Expansion(t)| && Expansion(t)[k] == u;
      ExpansionCanonicalLast(t, k);
    }
  }
}
