# tcalc core: a verified model of parsing and evaluation

tcalc is a terminal calculator. Its core reads one line of input and turns it into a levelled syntax tree. A tree level is a vector of nodes, and each node holds a token, a child tree one level deeper and an optional value. The core then values that tree bottom-up. This project models that core in Dafny and proves what each stage promises.

- **Token kinds and tables.** `Tokens` models the closed `TokenType` enum and its predicates. It also models tokens built explicitly or implicitly. `Patterns` holds the operator and function name tables and the ten-tier binary-operator precedence table. The numeral regexes are written there as recogniser predicates over strings.
- **Errors.** `Errors` models the three error records (syntax, conversion, invalid operation), the input position and the combined error the evaluator reports.
- **Numbers.** Three modules cover the numeric types:
  - `Bitseqs` is the bit sequence: a `u128` pattern with a length;
  - `Integers` is the 512-bit integer, with factorial up to 97;
  - `Values` is the tagged value.

  Two helpers serve them. `Numerics` holds the powers of two, the integer bounds, and bitwise `or`/`xor` on naturals. `Decimals` holds the trailing-zero trimming of the decimal display. `Values` contains:
  - numeral parsing by base;
  - the Bitseq/Integer conversions of `try_mutate_into`;
  - the unary operations (`+`, `-`, `!`, `¬`, `~`);
  - the `ValueStore` class of named values.
- **Trees.** `Asts` models the `Ast` and `AstNode` records, pushing nodes, relevelling, and the size measures used for termination.
- **Parser.** The parser is split along the structure of `parser.rs`:
  - `Tokenizer` covers the character loop, greedy runs and depth-balanced parenthesised spans;
  - `Passes` covers `+`/`-` disambiguation, implicit `*` and the implicit `mem 0` call;
  - `Folding` covers the three folding passes: postfix `!` left to right, prefix unary right to left, then the binary tiers right to left;
  - `Parser` holds the recursive driver and the `Parser` class, and proves what a parsed line reads back and what shape it has.
- **Evaluator.** `Evaluator` models the post-order walk that writes values into nodes. It keeps the first error, and it panics on arity mismatches and on the unimplemented binary evaluation. The `Evaluator` class holds the store and runs the walk with a loop over the children.

Each pass that loops over the node vector in place is a method with a `while` loop. Each such method is proved equal to a recursive specification function, and lemmas about that function state what the pass means. Examples are the error conditions, the length change, the grouping, the reading order of tokens and the level invariant. Trees are values: a `&mut Ast` pass becomes a method that takes the tree and returns the new one, together with the `Result` the source returns. A Rust panic (`panic!`, `unwrap` on `None`/`Err`, `todo!()`, and integer overflow, which panics in a debug build) is the `Panicked` case of `Outcomes.Outcome`.

## Model

| member | source | states |
|---|---|---|
| Errors.IsDefault | src/core/errors.rs:128-137 | a position is the default exactly when its file is `unknown` and line and column are 0 |
| Errors.At | src/core/parser.rs:523-533 | the parser's position keeps line and column; it is the default exactly at line 0, column 0 |
| Errors.Code | src/core/errors.rs:84-89 | the code is 10 exactly for a syntax error, 11 exactly for a conversion error and 12 exactly for an invalid-operation error |
| Errors.CodeIsInjective | src/core/errors.rs:84-89 | different error kinds have different codes |
| Errors.New | src/core/errors.rs:16-21 | `new` keeps kind and message and uses the default position |
| Errors.NewP | src/core/errors.rs:23-28 | `newp` stores kind, message and the given position |
| Errors.WithPosition | src/core/errors.rs:30-35 | `with_position` replaces only the position; the kind and message are unchanged |
| Errors.WithPositionTwice | src/core/errors.rs:30-35 | the second of two `with_position` calls wins |
| Errors.ToTCalcError | src/core/errors.rs:70-80 | the conversion into `TCalcError` keeps message and position and sets the matching kind |
| Errors.ToTCalcErrorIsInjective | src/core/errors.rs:70-80 | the conversion loses nothing: different errors stay different |
| Errors.TCalcWithPosition | src/core/errors.rs:98-102 | `TCalcError::with_position` replaces only the position |
| Tokens.TerminalIsNumeralOrVariable | src/core/tokens.rs:44-46 | `is_terminal` holds exactly for Bitseq, Integer, Decimal and VariableIdentifier, that is, for numerals and variables |
| Tokens.UnaryBinaryDisjoint | src/core/tokens.rs:29-34 | no type is both unary and binary; AmbiguousOperator and Expression are neither |
| Tokens.ResolvedOperators | src/core/tokens.rs:23-28 | a resolved operator is an operator; the only unresolved operator is AmbiguousOperator |
| Tokens.FunctionIdentifiers | src/core/tokens.rs:35-43 | a function identifier is exactly an identifier that is not a variable |
| Tokens.ExpressionIsNoneOfThem | src/core/tokens.rs:19-46 | Expression is not a terminal, operator, identifier, numeral or function |
| Tokens.NewToken | src/core/tokens.rs:79-86 | `Token::new` stores type, content and position and is not implicit |
| Tokens.NewImplicit | src/core/tokens.rs:88-95 | `new_implicit` stores type, content and position and is implicit |
| Tokens.NewAndImplicitDifferOnlyInFlag | src/core/tokens.rs:79-95 | the two constructors differ in the implicit flag alone |
| Patterns.PrecedenceHasTenTiers | src/core/patterns.rs:24-35 | there are ten tiers, from `^` first to `:=` last |
| Patterns.TierIndexOfListed | src/core/patterns.rs:24-35 | an operator listed in tier i has tier index i |
| Patterns.ListedOfTierIndex | src/core/patterns.rs:24-35 | an operator with a tier index is listed in that tier |
| Patterns.TiersAreDisjoint | src/core/patterns.rs:24-35 | no operator is listed in two tiers |
| Patterns.TiersCoverBinaryOperators | src/core/patterns.rs:24-35 | an operator is in `BINARY_OPERATORS` if and only if some tier lists it |
| Patterns.AmbiguousAreUnaryAndBinary | src/core/patterns.rs:46-51 | `+` and `-` are both unary and binary operators |
| Patterns.OperatorSpellingsUseOperatorChars | src/core/patterns.rs:41-51 | every operator spelling uses only operator characters (initial and internal are equal) |
| Patterns.IdentifierCharacters | src/core/patterns.rs:43-44 | the identifier table as written contains letters and backslash only, lacks `i` and `I`, lists `o` and `O` twice, and has 53 characters |
| Patterns.BuiltinNamesOutsideIdentifierChars | src/core/patterns.rs:43-64 | `sin`, `pi`, `\inbase` and `\precision` are builtins that contain a character missing from that table |
| Patterns.IdentifierCharsAreLetters | src/core/patterns.rs:43-44 | the corrected identifier table contains every ASCII letter and backslash |
| Patterns.BuiltinNamesAreIdentifierChars | src/core/patterns.rs:52-64 | every builtin function and variable name is made of corrected identifier characters |
| Patterns.BasePrefixLetters | src/core/patterns.rs:9 | `BASE_PREFIX` matches exactly strings that start with `0` and one of `bBdDoOxX` |
| Patterns.BinaryIntegerShape | src/core/patterns.rs:10 | `BINARY_INTEGER` matches `0b`/`0B`, then `[01_]*`, ending in a binary digit |
| Patterns.DecimalIntegerShape | src/core/patterns.rs:13-14 | `DECIMAL_INTEGER` matches digits with interior underscores only, optionally after `0d`/`0D` and at most one `_` |
| Patterns.DigitRunInterior | src/core/patterns.rs:13-14 | the digit-run part of the regex is exactly: digits that start and end with a digit, underscores only inside |
| Numerics.Pow2Add | src/core/bitseqs.rs:53-59 | powers of two multiply by adding exponents (the shifts of the mask) |
| Numerics.PowersOfTwo | src/core/integers.rs:12 | the bounds used for `u128`, `i128` and the 512-bit integer are the intended powers of two |
| Numerics.OrBits | src/core/bitseqs.rs:53-59 | bit k of `a or b` is set exactly when it is set in a or b |
| Numerics.XorBits | src/core/bitseqs.rs:53-59 | bit k of `a xor b` is set exactly when a and b differ there |
| Numerics.XorTwice | src/core/bitseqs.rs:53-59 | xor with the same mask twice gives back the value |
| Numerics.BitOpsBelow | src/core/bitseqs.rs:53-59 | or and xor of values below 2^n stay below 2^n, so the mask fits a `u128` |
| Numerics.LowMaskBits | src/core/bitseqs.rs:54-57 | the mask built by the loop has exactly the bits below n set |
| Numerics.LowMaskStep | src/core/bitseqs.rs:55-57 | one iteration `mask \|= 1 << i` extends the mask of i bits to i+1 bits |
| Numerics.BitLength | src/core/bitseqs.rs:104 | `128 - leading_zeros` is the least n with v < 2^n |
| Numerics.BitLengthAtMost | src/core/bitseqs.rs:104 | a value below 2^w needs at most w bits |
| Bitseqs.New | src/core/bitseqs.rs:23-28 | `Bitseq::new` panics exactly for a length of 128 or more, and otherwise stores value and length |
| Bitseqs.IsZero | src/core/bitseqs.rs:49-51 | `is_zero` holds exactly for value 0 |
| Bitseqs.FromStr | src/core/bitseqs.rs:30-47 | `from_str` is None for the empty string, for more than 128 characters and for any character other than 0 and 1; otherwise the length is \|s\| and the value is the binary number |
| Bitseqs.BinaryValueOfDigits | src/core/bitseqs.rs:16 | the binary digits of v, padded to n places, read back as v |
| Bitseqs.FromStrOfToString | src/core/bitseqs.rs:14-47 | parsing the digits of the `0b…` display gives back the bit sequence |
| Bitseqs.NegMut | src/core/bitseqs.rs:53-59 | `neg_mut` flips exactly the bits below `len`, keeps the higher ones, and keeps the length |
| Bitseqs.NegatedTwice | src/core/bitseqs.rs:53-59 | negating twice restores the bit sequence |
| Bitseqs.FromU128 | src/core/bitseqs.rs:100-107 | `From<u128>` keeps the value and sets the length to its significant bit count, 0 for value 0 |
| Bitseqs.TryFromInteger | src/core/bitseqs.rs:109-123 | conversion from an integer fails (ConversionError) exactly for negative input and otherwise keeps the value |
| Bitseqs.TryIntoInteger | src/core/bitseqs.rs:72-83 | conversion into `i128` succeeds exactly when the value is at most `i128::MAX` and keeps the value |
| Bitseqs.IntegerRoundTrip | src/core/bitseqs.rs:72-123 | for 0 ≤ i, Integer→Bitseq→Integer returns i |
| Bitseqs.BitseqRoundTrip | src/core/bitseqs.rs:72-123 | Bitseq→Integer→Bitseq returns the value with its significant length, so the sequence itself when its length is minimal |
| Integers.BitseqMaxValue | src/core/integers.rs:32-44 | `BITSEQ_MAX_VALUE` is 2^128 - 1 = `u128::MAX` |
| Integers.FactMonotone | src/core/integers.rs:72-78 | n! grows with n |
| Integers.FactorialCeiling | src/core/integers.rs:28-30 | 97! fits a signed 512-bit integer and 98! does not |
| Integers.Factorial | src/core/integers.rs:60-79 | negative input gives the "undefined for values < 0" error, input above 97 the `gamma (x + 1)` error, and otherwise the loop returns n! without overflow |
| Integers.FactFits | src/core/integers.rs:28-30 | every n! with n ≤ `MAX_FACTORIAL` fits the 512-bit integer, so the loop cannot overflow |
| Integers.FactorialOfZero | src/core/integers.rs:72-78 | 0! = 1 for the 512-bit integer |
| Integers.FromBitseq | src/core/integers.rs:94-100 | `From<Bitseq>` keeps the value |
| Integers.FromU128 | src/core/integers.rs:102-108 | `From<u128>` keeps the value |
| Integers.FromBool | src/core/integers.rs:110-116 | true becomes 1 and false becomes 0 |
| Integers.Cmp | src/core/integers.rs:138-156 | the ordering is the ordering of the underlying integers |
| Integers.CmpIsTotalOrder | src/core/integers.rs:138-156 | equality agrees with `Equal`, the order is antisymmetric and transitive |
| Integers.Neg | src/core/integers.rs:158-164 | negation is exact, and it panics only for the minimum value, where it overflows |
| Integers.Add | src/core/integers.rs:166-174 | addition is exact, and it panics exactly when the sum leaves the 512-bit range |
| Integers.NegAddLaws | src/core/integers.rs:158-174 | negation is an involution; 0 is neutral for addition; a + (-a) = 0 |
| Decimals.IndexOf | src/core/decimals.rs:45 | `split_once` splits at the first `.` |
| Decimals.TrimEndZeros | src/core/decimals.rs:46 | trimming removes exactly the trailing zeros: the result is a prefix, does not end in 0, and only zeros were removed |
| Decimals.DisplayWithoutPoint | src/core/decimals.rs:42-54 | a string without `.` is shown followed by `.0` |
| Decimals.DisplayWithPoint | src/core/decimals.rs:43-51 | the part before the first `.` is kept verbatim, and the trimmed fractional part follows, or `0` when it is empty |
| Decimals.DisplayShape | src/core/decimals.rs:40-56 | the display always has a `.` and a fractional part that is `0` or does not end in 0 |
| Decimals.DisplayIsIdempotent | src/core/decimals.rs:40-56 | applying the trimming to its own output changes nothing |
| Values.FromInteger | src/core/values.rs:185-192 | `from_integer` tags Integer, keeps the number and zeroes the other fields |
| Values.FromDecimal | src/core/values.rs:194-201 | `from_decimal` tags Decimal, keeps the number and zeroes the other fields |
| Values.FromBitseq | src/core/values.rs:203-210 | `from_bitseq` tags Bitseq, keeps the sequence and zeroes the other fields |
| Values.CheckStrAndGetBase | src/core/values.rs:43-58 | the base is 2, 8, 10 or 16, and it is None exactly when no numeral regex matches |
| Values.NumeralFamiliesAreExclusive | src/core/values.rs:43-58 | no string matches the regexes of two bases, so the order of the tests never matters |
| Values.HasFractionalSeparator | src/core/values.rs:60-63 | true exactly when the string has a `.` or a `,` |
| Values.NormaliseAppend | src/core/values.rs:80 | removing `_` and mapping `,` to `.` works character by character |
| Values.StripStr | src/core/values.rs:78-86 | the stripped string has no `_` and no `,` |
| Values.StripBasePrefix | src/core/values.rs:70-76 | the first two characters are dropped when there are two, otherwise nothing is |
| Values.StripStrOfPrefixed | src/core/values.rs:78-86 | with a base prefix, the result is the normalised text after the prefix |
| Values.DigitValue | src/core/values.rs:88-95 | the digit value of a character is at most 36 |
| Values.FromStrRadix | src/core/values.rs:140 | `i128::from_str_radix` succeeds exactly when an optional leading sign is followed by at least one digit, every digit is below the base and the signed number they spell, read from the left, fits an `i128`; the result is that number |
| Values.DigitsValueFromLeft | src/core/values.rs:140 | the digits read from the end and read from the left spell the same number |
| Values.FromStrRadixExamples | src/core/values.rs:140 | `-ff` in base 16 is -255; `+` alone and `18` in base 8 are rejected |
| Values.FromBitseqStr | src/core/values.rs:124-136 | succeeds exactly when the stripped string is a valid bit sequence, giving that sequence; otherwise a syntax error at the given position |
| Values.FromIntStr | src/core/values.rs:138-150 | succeeds exactly when the stripped string is an `i128` in the base, giving that integer; otherwise a syntax error at the given position |
| Values.FromDecStr | src/core/values.rs:152-165 | succeeds exactly when the decimal conversion does, giving a Decimal; otherwise a syntax error at the given position |
| Values.FromStr | src/core/values.rs:167-183 | an unmatched pattern gives the "pattern … invalid" error; every error is a syntax error at the given position; the result is a Decimal exactly when the string has a fractional separator |
| Values.FromStrBinaryInteger | src/core/values.rs:124-136 | a binary integer numeral gives a Bitseq whose length is its stripped digit count; it fails only above 128 digits |
| Values.FromStrPlainDecimal | src/core/values.rs:138-183 | a plain digit string parses as a base-10 `i128`, and fails exactly on overflow |
| Values.FromStrOfInteger | src/core/values.rs:176-182 | without a separator, bases other than 2 go through the integer parser |
| Values.MutatedInto | src/core/values.rs:212-236 | a successful conversion has the target tag; a failure is a conversion error |
| Values.TryMutateInto | src/core/values.rs:212-236 | the step-by-step update gives the converted value on success and leaves the value unchanged on failure |
| Values.MutatedIntoMeaning | src/core/values.rs:212-236 | to the same type it is a no-op; Bitseq→Integer succeeds exactly up to `i128::MAX`; Integer→Bitseq succeeds exactly for non-negative values; each zeroes the source field |
| Values.MutateRoundTrip | src/core/values.rs:212-236 | for a non-negative integer, Integer→Bitseq→Integer restores the value |
| Values.UnaryPos | src/core/values.rs:278-280 | `unary_pos` is the identity |
| Values.Promoted | src/core/values.rs:283-286 | a Bitseq is promoted to an Integer with the same value (the `unwrap` panics above `i128::MAX`); other values are unchanged |
| Values.UnaryNeg | src/core/values.rs:282-293 | the result is -value, and a Bitseq operand gives an Integer; it panics on `i128` overflow or on a failed promotion |
| Values.TryFoldMulIsProduct | src/core/values.rs:303 | the checked-multiplication fold is the exact product while that fits an `i128`, and None otherwise |
| Values.ProdIsFact | src/core/values.rs:303 | the product of 1..n seeded with n is n! for n ≥ 1 |
| Values.FoldIsFact | src/core/values.rs:303 | the corrected fold over 1..n, seeded with 1, is n! when that fits an `i128`, and None otherwise |
| Values.FactorialAsWritten | src/core/values.rs:295-327 | as written: Decimal input panics at `todo!()`, and a negative integer gives the "undefined for negative integers" error |
| Values.FactorialAsWrittenOfZero | src/core/values.rs:301-303 | as written, 0! evaluates to 0 |
| Values.Factorial | src/core/values.rs:295-327 | corrected: Decimal input panics, a negative integer is an error |
| Values.FactorialI128Ceiling | src/core/values.rs:303-305 | 33! fits an `i128` and 34! does not |
| Values.FactorialMeaning | src/core/values.rs:295-313 | for 0 ≤ n ≤ 33, factorial is the Integer n!; for n ≥ 34 it is the "too large" error |
| Values.FactorialAgreesAwayFromZero | src/core/values.rs:295-327 | the as-written and corrected factorials agree on every value except zero |
| Values.LogicalNeg | src/core/values.rs:329-336 | the result is Integer 1 exactly when the operand is zero (in any variant), and otherwise 0 |
| Values.LogicalNegTwice | src/core/values.rs:329-336 | negating twice gives 1 for a nonzero operand and 0 for zero |
| Values.BitwiseNeg | src/core/values.rs:338-345 | a non-Bitseq operand is a conversion error and is not converted; otherwise the low `len` bits are flipped |
| Values.BitwiseNegTwice | src/core/values.rs:338-345 | bitwise negation undoes itself |
| Values.ValueStore.Default | src/core/values.rs:500-507 | the default store has no entries and no protected keys |
| Values.ValueStore.constructor | src/core/values.rs:454-465 | `new` holds exactly `test` and `\blah`; `test` is the intended real 12345.06789, not read through `decimalOf` |
| Values.BlahEntryIsItsNumeral | src/core/values.rs:460-463 | the `\blah` entry is what `from_str("0b000101011")` returns: the 9-bit sequence of 43 |
| Values.ValueStore.WithProtectedKeys | src/core/values.rs:467-476 | the store is empty and protects exactly the given keys, in order |
| Values.ValueStore.FromMap | src/core/values.rs:509-516 | the store holds the map and protects nothing |
| Values.ValueStore.Set | src/core/values.rs:478-480 | the key is taken verbatim and a later write overwrites; the protected keys are unchanged |
| Values.ValueStore.Get | src/core/values.rs:482-484 | a value is found exactly for a stored key, and it is the stored value |
| Values.ValueStore.ContainsIdentifier | src/core/values.rs:486-488 | true exactly for a stored key, that is, exactly when `get` finds it |
| Values.ValueStore.Clear | src/core/values.rs:490-492 | exactly the entries under protected keys are kept, unchanged |
| Values.ValueStore.ClearAll | src/core/values.rs:494-497 | the map and the protected list become empty |
| Values.Retained | src/core/values.rs:491 | `retain` keeps exactly the keys both stored and protected, with their values |
| Values.SetThenGet | src/core/values.rs:478-484 | once `set` has written a value under a key, `get` of that key returns the value, and `get` of any other key returns what the store held before |
| Values.RetainedIsIdempotent | src/core/values.rs:490-492 | clearing twice is the same as clearing once |
| Asts.NewFromToken | src/core/ast.rs:136-142 | the node has the token, an empty subtree and no value |
| Asts.NewWithSubtree | src/core/ast.rs:144-150 | the node has the token, the subtree and no value |
| Asts.UnvaluedChildrenAreChildren | src/core/ast.rs:152-158 | a node with unvalued children has children |
| Asts.RelevelNodeKeeps | src/core/ast.rs:49-56 | relevelling keeps token, value and number of children, and leaves a childless node alone |
| Asts.RelevelIsWellLeveled | src/core/ast.rs:49-56 | after `relevel_from(b)`, the tree is at level b and every subtree is one level deeper than its parent |
| Asts.RelevelOfWellLeveled | src/core/ast.rs:49-56 | relevelling a well-levelled tree to its own level changes nothing |
| Asts.RelevelTwice | src/core/ast.rs:49-56 | the last relevelling wins |
| Asts.RelevelFrom | src/core/ast.rs:49-56 | the method, which loops over the nodes, computes the relevelled tree |
| Asts.Push | src/core/ast.rs:21-26 | `push` appends the node with its subtree relevelled to the tree's own level (not +1) |
| Asts.PushedNode | src/core/ast.rs:21-26 | so a pushed node with children is not well levelled below the tree |
| Asts.PushToken | src/core/ast.rs:28-30 | `push_token` appends one childless node and changes no level |
| Asts.PushTokenKeepsLevels | src/core/ast.rs:28-30 | `push_token` keeps a tree well levelled |
| Asts.PushSubtree | src/core/ast.rs:32-35 | `push_subtree` appends one node whose subtree is relevelled to level + 1 |
| Asts.PushSubtreeKeepsLevels | src/core/ast.rs:32-35 | `push_subtree` keeps a tree well levelled |
| Asts.FromVec | src/core/ast.rs:111-119 | `From<Vec<AstNode>>` is a level-0 tree of the same nodes, in order |
| Asts.FromVecKeepsNodes | src/core/ast.rs:111-119 | each node keeps its token and value |
| Asts.FromNode | src/core/ast.rs:121-127 | `From<AstNode>` is a level-0 tree of that one node |
| Asts.SetSubtree | src/core/ast.rs:160-162 | `set_subtree` returns the old subtree and changes only the subtree |
| Tokenizer.Run | src/core/parser.rs:25-33 | the run is maximal: its characters are in the charset and the next one is not |
| Tokenizer.CopyWhile | src/core/parser.rs:25-33 | `_copy_while` appends exactly the maximal run from `start` |
| Tokenizer.Word | src/core/parser.rs:150-213 | a lexeme is its first character plus the maximal run of internal characters after it |
| Tokenizer.CloseIndex | src/core/parser.rs:42-55 | the span ends at a closing character inside the input |
| Tokenizer.CopyMatchedSpan | src/core/parser.rs:35-63 | succeeds exactly when the depth returns to 0, copying the span before the matching `)`; otherwise the unmatched error |
| Tokenizer.CloseIndexIsFirstZero | src/core/parser.rs:42-55 | the depth stays at least 1 inside the span and first reaches 0 at the matching character |
| Tokenizer.CloseIndexStaysOpen | src/core/parser.rs:42-55 | up to the matching place, or to the end of the input when there is none, the depth never drops below 1 |
| Tokenizer.CloseIndexCloses | src/core/parser.rs:47-51 | at the matching place the depth is 1, and its closing character brings it to 0 |
| Tokenizer.SpanIsBalanced | src/core/parser.rs:35-63 | a matched span is balanced and is closed by `)`; an unmatched one never goes below depth 0 |
| Tokenizer.NumeralType | src/core/parser.rs:154-161 | a numeral run is classified as a numeral type |
| Tokenizer.IdentifierType | src/core/parser.rs:173-181 | an identifier run is classified as an identifier type |
| Tokenizer.OperatorType | src/core/parser.rs:193-206 | an operator run that is classified at all is an operator type |
| Tokenizer.ScanAt | src/core/parser.rs:133-225 | a step that reads a token moves forward within the input |
| Tokenizer.Leaves | src/core/parser.rs:147-211 | each token becomes one childless node, in order |
| Tokenizer.ScanOne | src/core/parser.rs:133-225 | one loop step of the method matches the step function |
| Tokenizer.ReadNumeral | src/core/parser.rs:150-168 | the numeral token is the maximal run, typed by its content, at `(line, chr + i)`, and the scan moves past it |
| Tokenizer.ReadIdentifier | src/core/parser.rs:169-188 | the identifier token is the maximal run over the identifier table it is given, typed by the function tables, at `(line, chr + i)` |
| Tokenizer.ReadOperator | src/core/parser.rs:189-213 | the greedy operator run becomes a token, or the "Unknown operator" error at `(line, chr + i)` |
| Tokenizer.Tokenize | src/core/parser.rs:124-245 | the loop appends the leaves of the lexed tokens to the tree, or returns the first lexing error |
| Tokenizer.LexStep | src/core/parser.rs:133-224 | one pass of the loop: a skip moves one character on, a read token is followed by the rest, and a failure ends lexing with its error |
| Tokenizer.OperatorRuleHolds | src/core/parser.rs:193-206 | operator runs are classified ambiguous first, then unary, then binary |
| Tokenizer.LeavesAppend | src/core/parser.rs:147-211 | pushing one more token appends one leaf |
| Tokenizer.ScanReadsLexeme | src/core/parser.rs:133-224 | a skipped character is whitespace, and every other step reads a lexeme or fails as the source does |
| Tokenizer.ScanAtIdentifier | src/core/parser.rs:169-188 | at a character of the identifier table that starts no numeral, one step reads the greedy run over that table, typed by the function tables |
| Tokenizer.ScanAtUnknown | src/core/parser.rs:219-223 | a character that starts no token and is no parenthesis gives the "Unknown character" error at its own column |
| Tokenizer.IdentifierTokensFromTable | src/core/parser.rs:169-172 | every character of every identifier token read belongs to the identifier table |
| Tokenizer.AsWrittenIdentifiersLackI | src/core/parser.rs:169-172 | over the table as written no identifier token contains `i` or `I` |
| Tokenizer.LexPiAsWritten | src/core/parser.rs:169-223 | over the table as written, `pi` is read as the variable `p` and then fails with "Unknown character 'i'" one column on |
| Tokenizer.LexBuiltinIntended | src/core/parser.rs:169-188 | over the corrected table every builtin name alone is read as one identifier token, typed by the function tables |
| Tokenizer.ExpressionLexeme | src/core/parser.rs:136-149 | a parenthesised span becomes an Expression token of its inside, and the scan resumes after `)` |
| Tokenizer.NumeralRuleHolds | src/core/parser.rs:154-161 | with `.` or `,` the type is Decimal, with a leading `0b` Bitseq, and otherwise Integer |
| Tokenizer.LexReadsLexemes | src/core/parser.rs:124-226 | a successful lexing gives lexemes in input order, each at its own column |
| Tokenizer.UnspacedAppend | src/core/parser.rs:134-135 | dropping whitespace works piece by piece |
| Tokenizer.LexCoversInput | src/core/parser.rs:124-226 | the spellings of the lexed tokens are the input with whitespace removed: nothing is lost or invented |
| Tokenizer.LexErrors | src/core/parser.rs:136-224 | every lexing error is a syntax error on the line, at or after the start column, and one of the four messages |
| Passes.Retyped | src/core/parser.rs:330-332 | retyping changes only the token type |
| Passes.DisambiguateOperators | src/core/parser.rs:283-346 | the loop computes the disambiguated nodes or the first error |
| Passes.DisambiguationMeaning | src/core/parser.rs:283-346 | it succeeds exactly when every `+`/`-` is followed by something that starts its operand. Each becomes binary when it has a left value and unary otherwise, and the first token at level 0 counts as having a left value. The first operator lacking an operand gives the error, a dedicated one when `!` follows |
| Passes.DisambiguationOkFrom | src/core/parser.rs:285-345 | from index i on, the loop succeeds exactly when no later sign fails, and then every node is the expected one |
| Passes.DisambiguationErrFrom | src/core/parser.rs:285-345 | from index i on, a failure is the error of the first sign that fails |
| Passes.NoAmbiguousLeft | src/core/parser.rs:283-346 | no ambiguous operator survives disambiguation |
| Passes.DisambiguationRetypesOnly | src/core/parser.rs:283-346 | disambiguation keeps the length and every node's content, position, flag, subtree and value |
| Passes.DisambiguationErrors | src/core/parser.rs:309-340 | its errors are syntax errors |
| Passes.DisambiguationKeepsLevels | src/core/parser.rs:283-346 | it keeps a tree well levelled |
| Passes.ImplicitStar | src/core/parser.rs:270-275 | the inserted node is an implicit childless binary operator |
| Passes.ImplicitMuls | src/core/parser.rs:247-281 | insertion never removes nodes and keeps the first |
| Passes.ExposeImplicitMultiplications | src/core/parser.rs:247-281 | the loop inserts the implicit `*` as the specification does, and never fails |
| Passes.ImplicitMulsErase | src/core/parser.rs:247-281 | removing the implicit nodes gives back the input, so all other nodes keep their order |
| Passes.ImplicitMulsAddsStars | src/core/parser.rs:270-275 | every node of the result is an input node or an implicit childless `*` |
| Passes.NoJuxtaposedLeft | src/core/parser.rs:249-279 | afterwards no value-ending node is directly followed by a value-starting one |
| Passes.StarsBetweenJuxtaposed | src/core/parser.rs:249-279 | each implicit `*` sits between a value end and a value start and carries the position of the node after it |
| Passes.ImplicitMulsLength | src/core/parser.rs:249-279 | the length grows by the number of juxtaposed pairs |
| Passes.ImplicitMulsKeepsLevels | src/core/parser.rs:247-281 | it keeps a tree well levelled |
| Passes.GenerateMem0Call | src/core/parser.rs:369-385 | the generated node is the implicit Expression `(mem 0)` holding `mem` applied to Integer `0`, all at the given position |
| Passes.ExposeImplicitMem0Call | src/core/parser.rs:348-367 | exactly one node is prepended, the relevelled call, when the tree is at level 0 and starts with a binary operator or function; otherwise the tree is unchanged; it never fails |
| Passes.Mem0CallIsWellLeveled | src/core/parser.rs:357-364 | the prepended call is well levelled below level 0 |
| Passes.Mem0KeepsLevels | src/core/parser.rs:348-367 | prepending it keeps a tree well levelled |
| Folding.FoldSubtree | src/core/parser.rs:412-414 | the operands' subtree lies one level below the tree |
| Folding.Fold | src/core/parser.rs:412-415 | folding keeps the operator's token and value and gives it one child per operand |
| Folding.FoldLevel | src/core/parser.rs:412-415 | a folded node is well levelled |
| Folding.FoldBangAt | src/core/parser.rs:411-415 | folding `!` at i replaces the operand and the operator by one node |
| Folding.FoldPrefixAt | src/core/parser.rs:444-446 | folding a prefix operator at i replaces it and its operand by one node |
| Folding.FoldBinaryAt | src/core/parser.rs:496-501 | folding a binary operator at i replaces the operator and both operands by one node |
| Folding.IncorporateFactorials | src/core/parser.rs:400-421 | the loop computes the left-to-right factorial folding or its error |
| Folding.FactorialsMeaning | src/core/parser.rs:400-421 | it fails exactly when the first node is `!`, with the missing-operand error there. Otherwise each `!` takes its preceding sibling, the length shrinks by the number of `!`, tokens keep their reading order and the levels stay right |
| Folding.DoubleFactorial | src/core/parser.rs:401 | `x ! !` becomes `(x!)!` |
| Folding.IncorporateUnaryOpsAndFuncs | src/core/parser.rs:423-454 | the loop computes the right-to-left prefix folding or its error |
| Folding.UnariesMeaning | src/core/parser.rs:423-454 | it fails exactly when the last node is a prefix operator or function, with the missing-right-operand error there. Otherwise each takes the next sibling, the length shrinks by their number, tokens keep their order and the levels stay right |
| Folding.NestedPrefixes | src/core/parser.rs:424 | `- + x` becomes `-(+(x))` |
| Folding.IncorporateBinaryOpSet | src/core/parser.rs:465-508 | the loop computes the right-to-left folding of one tier or its error |
| Folding.BinarySetMeaning | src/core/parser.rs:465-508 | with no operator of the tier nothing changes; an operator of the tier at the end is a missing-operand error; every error is one; on success each operator has its two siblings, tokens keep their order and the levels stay right |
| Folding.RightGrouping | src/core/parser.rs:466 | `a * b / c` becomes `a * (b / c)`: right-associative grouping |
| Folding.IncorporateBinaryOps | src/core/parser.rs:456-463 | the loop runs the tiers in precedence order and stops at the first error |
| Folding.BinaryOpsShape | src/core/parser.rs:456-463 | after all tiers every top-level binary operator node has two operands and every other top-level node is an input node; every error is a missing-operand error |
| Folding.BinaryOpsReading | src/core/parser.rs:456-463 | the tiers keep the reading order of tokens |
| Folding.BinaryOpsLevels | src/core/parser.rs:456-463 | the tiers keep the levels right |
| Folding.IncorporateOperands | src/core/parser.rs:387-398 | factorials, then prefix operators, then binary tiers, stopping at the first error |
| Folding.IncorporationErrors | src/core/parser.rs:387-398 | its errors are syntax errors |
| Folding.IncorporationShape | src/core/parser.rs:387-398 | afterwards every top-level node is complete and every top-level operand node came from the input |
| Folding.IncorporationReading | src/core/parser.rs:387-398 | reading the folded nodes in order gives the tokens of the input nodes |
| Folding.IncorporationLevels | src/core/parser.rs:387-398 | folding keeps the levels right |
| Folding.ReadingRelevel | src/core/ast.rs:49-56 | relevelling does not change the reading of tokens |
| Parser.ParseIntoLexed | src/core/parser.rs:78-122 | the steps run in fixed order: tokenize, parse each Expression into its subtree, then the passes |
| Parser.ParseRecursively | src/core/parser.rs:78-122 | the method computes the specification, or returns its first error |
| Parser.ParseSubtrees | src/core/parser.rs:87-103 | the loop parses each Expression into a subtree one level deeper, at column `chr + 1`, stopping at the first error |
| Parser.ParseSubtreeAt | src/core/parser.rs:89-100 | on success, one Expression node gets the parsed subtree and nothing else changes |
| Parser.RunPasses | src/core/parser.rs:105-121 | disambiguation, implicit `*`, implicit `mem 0` and incorporation run in that order, stopping at the first error |
| Parser.ParseErrors | src/core/parser.rs:78-122 | every parse error is a syntax error |
| Parser.RestructureLevels | src/core/parser.rs:105-121 | the passes keep a well-levelled tree well levelled and at its level |
| Parser.ParseLevels | src/core/parser.rs:78-122 | a parsed tree is well levelled: each subtree is one level below its parent |
| Parser.SubtreesKeepTokens | src/core/parser.rs:87-103 | parsing the subtrees changes no token |
| Parser.LexemeFacts | src/core/parser.rs:133-224 | a lexed token is explicit, its ambiguous operators are `+` or `-`, and its binary operators have a tier |
| Parser.FreshLine | src/core/parser.rs:78-103 | after tokenizing and parsing the subtrees, the nodes have the lexed spellings and positions, and only Expressions have children |
| Parser.PreparedFromLine | src/core/parser.rs:105-121 | the nodes that reach incorporation are resolved, their explicit spellings and positions are those read, and the passes reduce to folding them |
| Parser.RestructureReading | src/core/parser.rs:105-121 | the written tokens of the folded tree, in reading order, are the input nodes' tokens |
| Parser.RestructureApplied | src/core/parser.rs:105-121 | every top node of a restructured line has all its operands and no unresolved sign |
| Parser.ParseReadsBack | src/core/parser.rs:65-122 | for a line parsed into an empty tree, reading it back, without the inserted tokens, gives the lexed spellings and positions in order |
| Parser.ParseShape | src/core/parser.rs:65-122 | every top-level node of a line parsed into an empty tree has all its operands |
| Parser.FreshParse | src/core/parser.rs:65-122 | both facts together, for a parse into an empty tree |
| Parser.Parser.Reset | src/core/parser.rs:17-19 | `reset` empties the tree |
| Parser.Parser.TakeAst | src/core/parser.rs:21-23 | `take_ast` hands over the tree and leaves an empty one |
| Parser.Parser.Parse | src/core/parser.rs:65-76 | identifiers are read over the table as written; on success the parsed tree is returned and the parser is left empty; on failure the first error is returned |
| Evaluator.NumeralValue | src/core/evaluator.rs:117-131 | a numeral is valued exactly when `from_str` accepts it, with that value; the error carries the node's position |
| Evaluator.VariableValue | src/core/evaluator.rs:133-151 | a variable is valued exactly when the store has it, with the stored value; otherwise the error names the identifier at the node's position |
| Evaluator.UnaryOperatorValue | src/core/evaluator.rs:153-173 | `+ - ! ¬ ~` dispatch to `unary_pos`, `unary_neg`, `factorial`, `logical_neg` and `bitwise_neg`, and the result is exactly that operation's; `¬` gives Integer 1 for a zero operand and 0 otherwise; `!` follows the factorial as written; any other spelling is the "undefined" error at the node |
| Evaluator.BangOperator | src/core/evaluator.rs:160 | `0!` evaluates to Integer 0, and on every other operand `!` agrees with the corrected factorial |
| Evaluator.UnaryFunctionValue | src/core/evaluator.rs:175-196 | `abs`, `not` and `sin` dispatch to their operations, and `sin` panics when its result is missing; any other name is the "undefined" error |
| Evaluator.Dispatch | src/core/evaluator.rs:51-93 | a childless non-terminal panics; a unary node with other than one child panics; any other non-terminal panics (binary arity or `todo!()`); a result means a unary node with one valued child |
| Evaluator.Settle | src/core/evaluator.rs:62-71 | a success writes the value into the node; an error gets the node's position; a panic is kept |
| Evaluator.ValuedNodeIsLeftAlone | src/core/evaluator.rs:24-28 | a node that already has a value gives Ok and changes nothing |
| Evaluator.NumeralMeaning | src/core/evaluator.rs:29-34 | a numeral terminal succeeds exactly when `from_str` does and gets that value; otherwise the node is unchanged and the error is positioned at it |
| Evaluator.VariableMeaning | src/core/evaluator.rs:35-40 | a variable terminal succeeds exactly when defined and copies its value; otherwise the node is unchanged and the error names it |
| Evaluator.ChildFailureAborts | src/core/evaluator.rs:43-47 | the first child failure is returned before the parent is dispatched, and the parent stays unvalued |
| Evaluator.ArityPanics | src/core/evaluator.rs:51-80 | a childless non-terminal panics; a unary node with other than one child panics; a non-unary non-terminal panics |
| Evaluator.UnaryOperatorMeaning | src/core/evaluator.rs:54-65 | once its one child is valued, a unary operator node settles with the operator's result |
| Evaluator.UnaryFunctionMeaning | src/core/evaluator.rs:66-72 | once its one child is valued, a unary function node settles with the function's result |
| Evaluator.EvalFromOk | src/core/evaluator.rs:44-46 | after a successful child the walk continues with the next |
| Evaluator.EvalFromStops | src/core/evaluator.rs:44-46 | a failing child stops the walk; it and the children after it are left as they are |
| Evaluator.EvalFromLength | src/core/evaluator.rs:44-46 | the walk keeps the number of children and the ones already done |
| Evaluator.EvalNodeExtends | src/core/evaluator.rs:24-95 | evaluation only adds values: tokens and tree shape never change and no value is removed |
| Evaluator.EvalNodeValues | src/core/evaluator.rs:24-95 | a successful evaluation leaves the node valued |
| Evaluator.EvalFromValues | src/core/evaluator.rs:44-46 | after a successful walk every child is valued |
| Evaluator.EvalFromValued | src/core/evaluator.rs:24-28 | a walk over valued nodes succeeds and changes nothing |
| Evaluator.EvaluateTree | src/core/evaluator.rs:97-115 | evaluation keeps the tree's level |
| Evaluator.EvaluateIsIdempotent | src/core/evaluator.rs:24-28 | after a successful evaluation every top node is valued, and evaluating again succeeds and changes nothing |
| Evaluator.EvaluateExtends | src/core/evaluator.rs:97-100 | evaluating a tree only adds values to its nodes |
| Evaluator.UndefinedOperandReported | src/core/evaluator.rs:43-47 | in `-x!` with `x` undefined, the error names `x` at its own position: the innermost failure propagates unchanged |
| Evaluator.Evaluator.EvaluateNode | src/core/evaluator.rs:24-95 | the recursive method with its loop over the children computes the specification |
| Evaluator.Evaluator.Evaluate | src/core/evaluator.rs:97-100 | the loop evaluates the top-level nodes left to right and stops at the first error |

## Left out

- Floating point. `Decimal` (`f64`) is a `real` field. The conversion of a fractional numeral to a decimal (`_to_base_10` and the `f64` parse) is the parameter `decimalOf`. Every `f64` cast is out of scope.
- Values.MutatedInto and Values.TryMutateInto: these cover only the conversions that involve no floating-point cast (to the same type, and Bitseq↔Integer). The Decimal paths, and the "No known conversion path" error they make reachable, are excluded by the `ExactPath` requirement.
- Values.TryMutateInto, Asts.Push, Asts.PushToken, Asts.PushSubtree, Asts.RelevelFrom, Asts.SetSubtree and the parser passes: these return the updated value or tree instead of updating it in place. Rust's exclusive borrows rule out aliasing, so only the place of the update differs.
- Values.ValueStore.constructor: the `test` entry is the exact real 12345.06789. It does not go through the floating-point parse (`decimalOf`) that `Value::from_str("12345.06789")` would use.
- Values.UnaryNeg, Integers.Neg and Integers.Add: an overflow is modelled as a panic, as in a debug build. A release build wraps around instead, and that is not modelled.
- Parser.Parser.Parse: it does not describe the partly built tree left in the parser after an error.
- The big-number library internals are out of scope: the 512-bit integer representation, `from_str_radix` on it, `TryFrom<Decimal>`, and the decimal constants and conversions. `Integers` models the 512-bit integer as a bounded `int`. `Decimals` models only the display's string trimming, on the library's string.
- The Decimal branch of `factorial` is `todo!()` and is modelled as a panic.
- Evaluation of binary operators and binary functions is `todo!()` and is modelled as a panic.
- The unary functions `abs` and `sin` are not defined on the `Value` shown. They are the `abs` and `sin` parameters of `Evaluator.Builtins`.
- The `unwrap_or_propagate!` macro is not part of this model. It is modelled as converting the error into `TCalcError` and setting the node's position with `with_position`.
- `Value::from_str` is called with one argument in the evaluator but takes a position as well. The model passes the default position, which the evaluator's `with_position` overrides.
- The unused `_evaluate_variables` is left out. So are the `println!` calls, all `Display` implementations except the decimal trimming and the bit-sequence digits, `main.rs` and `core.rs`.
- `environment.rs` is not part of this model. Its constant seeding calls `set_readonly`, which the `ValueStore` shown does not define. `Evaluator::new`/`Default` are also left out: they build an `Environment` and set `Bitseq::ONE`, which is not defined. `Evaluator.Evaluator.constructor` takes the store instead.
- `has_subtree` and `subtree.as_mut().unwrap()` in `expose_implicit_mem0_call` do not fit the `Ast` field shown. They are modelled as `has_children` and the subtree itself.
- `TokenType::Rational` in the parser is modelled as `TokenType::Decimal`. The parser's `Position`, Value's `Position` and `InputPosition` are one record whose file is `unknown`.
- `SyntaxError::new` is called with a message and a position in the parser. It is modelled as `newp`, which keeps the position.
- The superseded malachite-based `types.rs` and `bitseq.rs` are not part of this model.
- Evaluator.UnaryFunctionValue: the result of `sin` is stated only as panicking exactly when the abstract function gives none, because `sin` itself is not part of this model.

## Findings

| source | as written | input that shows it | evidently intended | confidence | as-written member | corrected member |
|---|---|---|---|---|---|---|
| src/core/values.rs:301-303 | the fold over `1..n` is seeded with n itself, so the empty range for n = 0 returns 0 | the numeral `0!` evaluates to Integer 0 | 0! = 1, as `Integer::factorial` gives (src/core/integers.rs:72-78) | not executed | Values.FactorialAsWritten, Values.FactorialAsWrittenOfZero, Evaluator.BangOperator | Values.Factorial, Values.FactorialMeaning |
| src/core/patterns.rs:43 | the identifier table lists `o`/`O` where `i`/`I` belong, so no identifier can contain `i` | `sin`, `pi` and `\inbase` are builtins but cannot be read as identifiers | all ASCII letters plus backslash | not executed | Patterns.IdentifierCharacters, Patterns.BuiltinNamesOutsideIdentifierChars, Tokenizer.AsWrittenIdentifiersLackI, Tokenizer.LexPiAsWritten | Patterns.IdentifierCharsAreLetters, Patterns.BuiltinNamesAreIdentifierChars, Tokenizer.LexBuiltinIntended |

The model follows the code as written in both cases. The parser reads identifiers over the table as written, and the `!` operator uses the factorial as written. The corrected versions stand beside them. The tokenizer takes its identifier table as a parameter, so the corrected table can be passed in its place, and the corrected factorial has its own definition and lemmas.
