# diman unit-system macro core, modelled in Dafny

This project models three sequential pieces of the `diman` procedural-macro
crate, which reads a description of physical dimensions, units and
constants:

- **Unit-template expansion** (`Types`). A unit template has a list of
  prefixes P and a list of aliases A. It becomes (|P|+1)·(|A|+1) concrete
  unit entries, ordered prefix-major: the prefixes and then "no prefix",
  each combined with the aliases and then "no alias". Each entry gets:
  - a name made of the prefix name followed by the alias or template name;
  - a symbol, but only if it has no alias;
  - a definition: the template's own for the canonical entry, for every
    other entry `factor * template`;
  - a provenance tag.

  `expand_templates` expands every template in order and passes the other
  collections through unchanged.
- **Dimension derive** (`DeriveDimension`). This is the check that every
  named field of the dimension struct is declared `i8`, `i32` or `i64`. It
  also covers the exponent-vector algebra of the generated methods `none`,
  `dimension_mul`, `div`, `inv`, `powi`, `sqrt` and `cbrt` over a vector
  with one entry per field. `sqrt` and `cbrt` panic unless every component
  divides evenly; the model's result type records that panic.
- **Definition parser** (`ParseStream`, `ParseTypes`, `Parse`). The input is
  a tree of tokens: identifiers, literals, punctuation, and delimited
  groups. The model covers:
  - the one-token dispatches of `Prefix`, `UnitFactor` and
    `QuantityDefinition`;
  - the two forms of a unit entry;
  - the keyword dispatch of an entry;
  - `Defs::parse`, which reads `quantity_type , dimension_type , [entries]`
    and sorts the entries into quantities, units and constants, keeping
    their order.

What is proved:
- Expansion:
  - cardinality and position of every entry;
  - the canonical entry is last;
  - symbol placement and the symbol count;
  - provenance of every entry;
  - in-order concatenation.
- Algebra:
  - identity, commutativity and associativity;
  - `div` is `mul` by `inv`, and `inv` is an involution;
  - the special powers and adding exponents;
  - the root round trips, and the exact condition under which a root panics.
- Field validation: the exact acceptance condition, and names kept in order.
- Parser:
  - the exact behaviour of every dispatch;
  - the exact set of well-formed unit entries;
  - keyword errors, which name the identifier;
  - sorting that preserves both length and order.

The methods `Types.Expand`, `DeriveDimension.DimensionFieldNames`,
`Parse.ParseUnitEntry` and `Parse.ParseDefs` follow the source's loops and
mutable variables. Each one is proved against the function the rest of the
model uses, or directly against its postconditions.

## Model

| member | source | states |
|---|---|---|
| Types.MapConcrete | crates/diman_unit_system/src/types/mod.rs:27-33 | a concrete factor stays concrete with `f` applied; a reference stays the same reference |
| Types.MapConcreteIdentity | crates/diman_unit_system/src/types/mod.rs:28-33 | mapping with the identity gives back an equal factor |
| Types.MapConcreteComposes | crates/diman_unit_system/src/types/mod.rs:28-33 | mapping with `f` and then with `g` is the same as mapping once with `g ∘ f` |
| Types.IsBaseDimension | crates/diman_unit_system/src/types/mod.rs:50-53 | true exactly when the right-hand side is `Base(())`; otherwise it is an expression |
| Types.FormatName | crates/diman_unit_system/src/types/mod.rs:99-108 | the base is the alias name if there is an alias, else the template name; with a prefix, the name starts with the prefix name and the rest is that base; without a prefix it is the base |
| Types.FormatSymbol | crates/diman_unit_system/src/types/mod.rs:110-125 | `None` whenever there is an alias; with neither alias nor prefix, the template's symbol; with a prefix only, present exactly when the template has a symbol, and then it is the prefix's short form followed by that symbol |
| Types.GetDefinition | crates/diman_unit_system/src/types/mod.rs:127-144 | the template's definition when there is neither prefix nor alias; otherwise `factor * template-name`, where `factor` is the prefix factor, or 1.0 without a prefix |
| Types.ExpandPrefixAndAlias | crates/diman_unit_system/src/types/mod.rs:146-162 | the entry's name, symbol and definition come from the three formatters; the dimension annotation is copied; the provenance is the template name exactly when a prefix or an alias is present |
| Types.CanonicalEntry | crates/diman_unit_system/src/types/mod.rs:146-162 | with neither prefix nor alias, the entry is the template itself, without provenance |
| Types.Options | crates/diman_unit_system/src/types/mod.rs:165-168 | the drained list is wrapped in `Some` and followed by one `None` |
| Types.Row | crates/diman_unit_system/src/types/mod.rs:171-175 | the inner map has one entry per alias option, in order |
| Types.RowsAt | crates/diman_unit_system/src/types/mod.rs:169-176 | flattening the rows gives |P'|·|A'| entries, and entry i·|A'|+j pairs prefix option i with alias option j |
| Types.RowsLength | crates/diman_unit_system/src/types/mod.rs:169-176 | the flattened rows have |P'|·|A'| entries |
| Types.Expand | crates/diman_unit_system/src/types/mod.rs:164-177 | the nested loops over prefix options (outer) and alias options (inner) produce exactly the expansion, with (|P|+1)·(|A|+1) entries |
| Types.ExpansionShape | crates/diman_unit_system/src/types/mod.rs:164-177 | for every i ≤ |P| and j ≤ |A|, entry i·(|A|+1)+j is the entry for prefix option i and alias option j |
| Types.ExpansionIndex | crates/diman_unit_system/src/types/mod.rs:164-177 | every entry k decomposes as k = i·(|A|+1)+j and is the entry for options i and j; the options are "no prefix, no alias" exactly for the last entry |
| Types.ExpansionCanonicalLast | crates/diman_unit_system/src/types/mod.rs:164-177 | the last entry is the canonical entry, and it is the only entry without provenance |
| Types.ExpansionRefersToTemplate | crates/diman_unit_system/src/types/mod.rs:132-154 | every entry but the last records the template name as its provenance and is defined as a factor times the template |
| Types.ExpansionSymbolOnlyUnaliased | crates/diman_unit_system/src/types/mod.rs:110-125 | only entries in the "no alias" column carry a symbol, and each of those carries one exactly when the template has a symbol |
| Types.ExpansionSymbolCount | crates/diman_unit_system/src/types/mod.rs:164-177 | exactly |P|+1 entries carry a symbol when the template has one, and none do otherwise |
| Types.ExpansionUnprovenanced | crates/diman_unit_system/src/types/mod.rs:150-154 | an expanded entry has no provenance exactly when it is the template's canonical entry |
| Types.ExpandTemplates | crates/diman_unit_system/src/types/mod.rs:191-205 | dimension types, quantity types, dimensions and constants pass through unchanged; the units are the expansions of the templates, concatenated in order |
| Types.ExpandAllAppend | crates/diman_unit_system/src/types/mod.rs:193-197 | expanding two template lists in a row gives the concatenation of their expansions |
| Types.ExpandAllLength | crates/diman_unit_system/src/types/mod.rs:193-197 | the number of units is the sum of (|P|+1)·(|A|+1) over the templates |
| Types.ExpandAllMembers | crates/diman_unit_system/src/types/mod.rs:193-197 | a unit is in the result exactly when it belongs to the expansion of one of the templates |
| DeriveDimension.DimensionFieldNames | crates/diman_unit_system/src/derive_dimension.rs:18-43 | succeeds exactly when every named field's type is a single-segment path naming `i8`, `i32` or `i64`, and then returns the field names in declaration order; otherwise it fails with the panic message; non-structs and structs without named fields give no fields |
| DeriveDimension.TruncRem | crates/diman_unit_system/src/derive_dimension.rs:90-96 | Rust's `%`: the remainder is strictly between -k and k, has the sign of the dividend, and is zero exactly when Dafny's remainder is zero |
| DeriveDimension.TruncDiv | crates/diman_unit_system/src/derive_dimension.rs:98-105 | Rust's `/`: quotient times divisor plus Rust's remainder gives back the dividend |
| DeriveDimension.Dimensionless | crates/diman_unit_system/src/derive_dimension.rs:45-52 | `none()` has every component zero |
| DeriveDimension.Mul | crates/diman_unit_system/src/derive_dimension.rs:54-61 | `dimension_mul` adds the vectors component by component |
| DeriveDimension.Div | crates/diman_unit_system/src/derive_dimension.rs:63-70 | `dimension_div` subtracts the vectors component by component |
| DeriveDimension.Inv | crates/diman_unit_system/src/derive_dimension.rs:72-79 | `dimension_inv` negates every component |
| DeriveDimension.Powi | crates/diman_unit_system/src/derive_dimension.rs:81-88 | `dimension_powi` multiplies every component by the exponent |
| DeriveDimension.Root | crates/diman_unit_system/src/derive_dimension.rs:90-122 | panics exactly when some component is not divisible by k, with the given message; otherwise every result component times k is the input component |
| DeriveDimension.Sqrt | crates/diman_unit_system/src/derive_dimension.rs:90-105 | panics exactly when some component is odd; otherwise the result, doubled, is the input |
| DeriveDimension.Cbrt | crates/diman_unit_system/src/derive_dimension.rs:107-122 | panics exactly when some component is not divisible by 3; otherwise the result, tripled, is the input |
| DeriveDimension.MulDimensionlessIdentity | crates/diman_unit_system/src/derive_dimension.rs:45-61 | `none()` is a two-sided identity of `dimension_mul` |
| DeriveDimension.MulCommutative | crates/diman_unit_system/src/derive_dimension.rs:54-61 | `dimension_mul` is commutative |
| DeriveDimension.MulAssociative | crates/diman_unit_system/src/derive_dimension.rs:54-61 | `dimension_mul` is associative |
| DeriveDimension.DivSelf | crates/diman_unit_system/src/derive_dimension.rs:63-70 | dividing a vector by itself gives `none()` |
| DeriveDimension.DivIsMulInv | crates/diman_unit_system/src/derive_dimension.rs:54-79 | `div(a, b)` equals `mul(a, inv(b))` |
| DeriveDimension.InvInvolutive | crates/diman_unit_system/src/derive_dimension.rs:72-79 | inverting twice gives back the vector |
| DeriveDimension.InvIsMulInverse | crates/diman_unit_system/src/derive_dimension.rs:54-79 | `mul(a, inv(a))` is `none()` |
| DeriveDimension.PowiSpecialExponents | crates/diman_unit_system/src/derive_dimension.rs:81-88 | `powi(a, 0)` is `none()`, `powi(a, 1)` is `a`, and `powi(a, -1)` is `inv(a)` |
| DeriveDimension.PowiTwoIsSquare | crates/diman_unit_system/src/derive_dimension.rs:54-88 | `powi(a, 2)` equals `mul(a, a)` |
| DeriveDimension.PowiAdd | crates/diman_unit_system/src/derive_dimension.rs:81-88 | `powi(a, m + n)` equals `mul(powi(a, m), powi(a, n))` |
| DeriveDimension.SqrtOfSquare | crates/diman_unit_system/src/derive_dimension.rs:90-105 | the square root of `mul(a, a)` succeeds and is `a` |
| DeriveDimension.CbrtOfCube | crates/diman_unit_system/src/derive_dimension.rs:107-122 | the cube root of `powi(a, 3)` succeeds and is `a` |
| DeriveDimension.SqrtThenSquare | crates/diman_unit_system/src/derive_dimension.rs:90-105 | when the square root succeeds, squaring the result gives back the input |
| ParseStream.ParseLiteral | crates/diman_unit_system/src/parse/mod.rs:28-32 | a literal is one literal token, or a minus sign followed by a numeric literal, which is read as one negative literal; succeeds exactly in those two cases, otherwise fails with "expected literal" |
| Parse.ParsePrefix | crates/diman_unit_system/src/parse/mod.rs:34-45 | an identifier gives `Prefix::Ident` and consumes one token; a literal gives `Prefix::Lit`, consuming one token, or two for a negative number; anything else fails with "expected identifier or literal" |
| Parse.ParsePrefixes | crates/diman_unit_system/src/parse/mod.rs:47-53 | succeeds exactly when the next token is a bracket group whose content parses as a comma-separated prefix list; consumes that one group |
| Parse.ParseDimensionEntry | crates/diman_unit_system/src/parse/mod.rs:55-62 | succeeds exactly on `ident : literal`, returning the identifier and the literal text (negated for `- number`) and consuming exactly those tokens |
| Parse.NegativeDimensionEntry | crates/diman_unit_system/src/parse/mod.rs:55-62 | `time: -1` is accepted, with exponent text `-1` |
| Parse.ParseDimensions | crates/diman_unit_system/src/parse/mod.rs:124-134 | succeeds exactly when the next token is a brace group whose content parses as a comma-separated list of dimension entries; the fields are that list, and the group is consumed |
| Parse.ParseUnitFactor | crates/diman_unit_system/src/parse/mod.rs:64-75 | an identifier gives `UnitOrQuantity` and consumes one token; a literal gives `Number`, consuming one token, or two for a negative number; anything else fails with "expected identifier or literal" |
| Parse.ParseQuantityDefinition | crates/diman_unit_system/src/parse/mod.rs:77-86 | with a brace group next, it is parsed as `Dimensions`; with anything else, as an expression; each succeeds exactly when the chosen parser does |
| Parse.ParseQuantityEntry | crates/diman_unit_system/src/parse/mod.rs:136-143 | succeeds exactly on `name = definition`, where the tokens after `=` parse as a quantity definition; the name comes from the first token and the definition from those tokens |
| Parse.ParseConstantEntry | crates/diman_unit_system/src/parse/mod.rs:145-152 | succeeds exactly on `name = expression`, where the tokens after `=` parse as a unit expression; the name comes from the first token and the expression from those tokens |
| Parse.UnitEntryGrammar | crates/diman_unit_system/src/parse/mod.rs:88-122 | a successful unit-entry parse consumes input |
| Parse.ParseUnitEntry | crates/diman_unit_system/src/parse/mod.rs:88-122 | the step-by-step parser, which assigns name, symbol and `mut prefixes` while advancing, returns exactly the unit-entry grammar's result |
| Parse.UnitEntryBareName | crates/diman_unit_system/src/parse/mod.rs:94-114 | form 1 succeeds exactly when a bare name is followed by `=` and an expression, and then has no symbol and no prefixes |
| Parse.UnitEntryBadStart | crates/diman_unit_system/src/parse/mod.rs:110-112 | a unit entry that starts with neither an identifier nor a parenthesised group fails with "expected identifier or parentheses" |
| Parse.UnitHeadExact | crates/diman_unit_system/src/parse/mod.rs:97-109 | the inside of the parentheses is accepted exactly when it is `name, symbol-literal`, either exhausted or followed by `, [prefixes]` and then exhausted; the name and symbol are those tokens' |
| Parse.UnitEntryParenForm | crates/diman_unit_system/src/parse/mod.rs:97-114 | form 2 succeeds exactly when the group is well formed and is followed by `=` and an expression; the name and symbol come from the group, and the prefixes are empty unless the list is present |
| Parse.UnexpectedKeywordMessage | crates/diman_unit_system/src/parse/mod.rs:161-167 | the error message starts with "Unexpected identifier: " followed by the offending identifier |
| Parse.ParseEntry | crates/diman_unit_system/src/parse/mod.rs:154-170 | a successful entry parse consumes input, which makes the entry list parser terminate |
| Parse.EntryKeywordDispatch | crates/diman_unit_system/src/parse/mod.rs:154-170 | `def` gives a quantity entry, `unit` a unit entry and `constant` a constant entry, each succeeding exactly when the entry parser does; any other identifier fails with the message naming it; a non-identifier fails with "expected identifier" |
| Parse.ParseDefsSyntax | crates/diman_unit_system/src/parse/mod.rs:172-186 | succeeds exactly on a type, `,`, a type, `,`, then a bracket group whose content parses as a comma-separated entry list; returns the two types and that list and consumes the five tokens |
| Parse.ParseDefs | crates/diman_unit_system/src/parse/mod.rs:172-200 | the partition loop returns the two types and, in order, the quantity, unit and constant entries of the parsed list; it fails exactly when the syntax does, with the same error |
| Parse.PartitionLengths | crates/diman_unit_system/src/parse/mod.rs:183-192 | the three lists together are as long as the entry list |
| Parse.PartitionAppend | crates/diman_unit_system/src/parse/mod.rs:183-192 | sorting a concatenation concatenates the sorted lists, so relative order is kept |
| Parse.PartitionMembers | crates/diman_unit_system/src/parse/mod.rs:183-192 | each list holds exactly the entries of its kind |

## Left out

- The dependency resolver, cycle detection, magnitude evaluation and the
  `verify` pass are not part of this model. The `resolve` and
  `dimension_math` modules are only referenced; their files are not part of
  this model.
- `Prefix::name()`, `short()` and `factor()` are not part of this model, and
  the prefix type of `types/prefixes` is a record of the three values. The
  `f64` factors and the 1.0 default are unevaluated `real` constants; nothing
  computes with them.
- The `rational-dimensions` feature is not modelled; exponents are integers.
- Spans, source locations and diagnostics are left out. So is all token
  emission (`quote!`, the code generator, `get_dimension_expr`).
- The expression grammar (`parse/expression.rs`) is not part of this model.
  The unit and quantity expression parsers are parameters, and all that is
  assumed of them is that a success consumes input. `Expression.Expr` has
  only the leaf and binary forms the core builds itself.
- Parsing-library internals are abstracted:
  - a `Type` is a single identifier;
  - keywords and `true`/`false` are not told apart from identifiers;
  - a literal counts as numeric, and so may follow a minus sign, when its text
    starts with a digit;
  - punctuation spacing is ignored;
  - lookahead errors are lists of what was expected.
- Leftover tokens inside the parentheses of a unit entry are reported by
  the library once the whole parse ends. The model reports them at once, as
  `UnexpectedToken`. Either way the parse fails.
- Tokens left after `Defs` are not checked. That check belongs to the macro
  entry point, which is not part of this model.
- DeriveDimension.Mul: the fields are mathematical integers, so `i8`, `i32`
  and `i64` overflow is not modelled. The same goes for `Div`, `Inv` and
  `Powi`, and for the `i32` exponent of `Powi`.
- A panic in `sqrt`, `cbrt` or field validation is an `Err` result with the
  panic message.
- The code produces the canonical, unprefixed and unaliased entry LAST in
  each template's expansion, and the model follows the code. The root panic
  message is fixed and does not name the offending component.
- `crates/unit_system/src/lib.rs` is not modelled: it is pipeline glue with
  `unwrap` and `panic`. Also left out are `src/debug_storage_type.rs`
  (floating-point and vector conversions) and the compile-only tests.
