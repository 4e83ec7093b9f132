/** The lexical tables of the calculator (patterns.rs): the character sets
    the tokenizer runs over, the operator and builtin name lists, the
    binary-operator precedence table, and the numeral patterns, written as
    recogniser predicates in place of the source's regular expressions. */
module Patterns {

  const Digits: string := "0123456789"
  const NumeralInitialChars: string := "0123456789.,"
  const NumeralInternalChars: string := "0123456789.,abcdefoxABCDEFOX_"
  const IgnorableWhitespaceChars: string := " \t"
  const OperatorInitialChars: string := "+-!^*/%\U{AC}<>=:&|?~"
  const OperatorInternalChars: string := OperatorInitialChars
  /** The source lists the letters one by one with `o` where `i` belongs:
      `abcdefgh` `o` `jklmn` `opqrstuvwxyz`, the same in upper case, then `\\`.
      So `i` and `I` are missing and `o` and `O` appear twice. */
  const IdentifierInitialChars: string :=
    "abcdefgh" + "ojklmn" + "opqrstuvwxyz" + "ABCDEFGH" + "OJKLMN" + "OPQRSTUVWXYZ" + "\\"
  const IdentifierInternalChars: string := IdentifierInitialChars

  const AmbiguousOperators: seq<string> := ["+", "-"]
  const UnaryOperators: seq<string> := ["+", "-", "!", "\U{AC}", "~"]
  const BinaryOperators: seq<string> := [
    "^", "*", "/", "%", "+", "-", "<=>", "<=", ">=", ":=", "<<<", ">>>", "<<", ">>", "<", ">",
    "!=", "==", "&&", "||", "??", "!?", "&", "|", "^|"
  ]
  const BuiltinUnaryFunctions: seq<string> := [
    "abs", "not", "sin", "cos", "tan", "cot", "sec", "csc", "exp", "ln", "lg", "log", "sqrt",
    "cbrt", "mem"
  ]
  const BuiltinBinaryFunctions: seq<string> := ["rt", "logb", "choose"]
  const BuiltinVariableIdentifiers: seq<string> := [
    "\\inbase", "\\outbase", "\\showfracs", "\\precision", "pi", "e"
  ]

  /** BINARY_OPERATOR_PRECEDENCE, tightest-binding tier first. */
  const BinaryOperatorPrecedence: seq<seq<string>> := [
    ["^"],                                               // exponentiation
    ["*", "/", "%"],                                     // multiplication, division, modulo
    ["+", "-"],                                          // addition, subtraction
    ["<<", ">>", "<<<", ">>>"],                          // bit shifts
    ["&"],                                               // bitwise and
    ["|"],                                               // bitwise or
    ["^|"],                                              // bitwise xor
    [">", "<", "<=", ">=", "!=", "==", "<=>", "??", "!?"], // comparisons
    ["&&", "||"],                                        // logical conjunction, disjunction
    [":="]                                               // assignment
  ]

  /** The precedence table has ten tiers. */
  lemma PrecedenceHasTenTiers()
    ensures |BinaryOperatorPrecedence| == 10
    ensures BinaryOperatorPrecedence[0] == ["^"] && BinaryOperatorPrecedence[9] == [":="]
  {
  }

  /** The tier an operator spelling belongs to, or -1. */
  function TierIndex(op: string): int
  {
    if op == "^" then 0
    else if op == "*" || op == "/" || op == "%" then 1
    else if op == "+" || op == "-" then 2
    else if op == "<<" || op == ">>" || op == "<<<" || op == ">>>" then 3
    else if op == "&" then 4
    else if op == "|" then 5
    else if op == "^|" then 6
    else if op == ">" || op == "<" || op == "<=" || op == ">=" || op == "!=" || op == "==" ||
            op == "<=>" || op == "??" || op == "!?" then 7
    else if op == "&&" || op == "||" then 8
    else if op == ":=" then 9
    else -1
  }

  /** A spelling listed in tier i has tier index i. */
  lemma TierIndexOfListed(i: nat, op: string)
    requires i < |BinaryOperatorPrecedence| && op in BinaryOperatorPrecedence[i]
    ensures TierIndex(op) == i
  {
    if i < 4 {
      TierIndexOfListedLow(i, op);
    } else {
      TierIndexOfListedHigh(i, op);
    }
  }

  lemma TierIndexOfListedLow(i: nat, op: string)
    requires i < 4 && op in BinaryOperatorPrecedence[i]
    ensures TierIndex(op) == i
  {
    if i == 0 { assert op in ["^"]; }
    else if i == 1 { assert op in ["*", "/", "%"]; }
    else if i == 2 { assert op in ["+", "-"]; }
    else { assert op in ["<<", ">>", "<<<", ">>>"]; }
  }

  lemma TierIndexOfListedHigh(i: nat, op: string)
    requires 4 <= i < |BinaryOperatorPrecedence| && op in BinaryOperatorPrecedence[i]
    ensures TierIndex(op) == i
  {
    if i == 4 { assert op in ["&"]; }
    else if i == 5 { assert op in ["|"]; }
    else if i == 6 { assert op in ["^|"]; }
    else if i == 7 { ComparisonTier(op); }
    else if i == 8 { assert op in ["&&", "||"]; }
    else { assert op in [":="]; }
  }

  lemma ComparisonTier(op: string)
    requires op in BinaryOperatorPrecedence[7]
    ensures TierIndex(op) == 7
  {
    assert op in [">", "<", "<=", ">=", "!=", "==", "<=>", "??", "!?"];
  }

  /** A spelling with tier index i is listed in tier i. */
  lemma ListedOfTierIndex(op: string)
    requires TierIndex(op) >= 0
    ensures TierIndex(op) < |BinaryOperatorPrecedence| && op in BinaryOperatorPrecedence[TierIndex(op)]
  {
    var T := BinaryOperatorPrecedence;
    var i := TierIndex(op);
    if i == 0 { assert op in T[0]; }
    else if i == 1 { assert op in T[1]; }
    else if i == 2 { assert op in T[2]; }
    else if i == 3 { assert op in T[3]; }
    else if i == 4 { assert op in T[4]; }
    else if i == 5 { assert op in T[5]; }
    else if i == 6 { assert op in T[6]; }
    else if i == 7 { assert op in T[7]; }
    else if i == 8 { assert op in T[8]; }
    else { assert op in T[9]; }
  }

  /** No spelling appears in two tiers. */
  lemma TiersAreDisjoint(i: nat, j: nat, op: string)
    requires i < j < |BinaryOperatorPrecedence|
    ensures !(op in BinaryOperatorPrecedence[i] && op in BinaryOperatorPrecedence[j])
  {
    if op in BinaryOperatorPrecedence[i] && op in BinaryOperatorPrecedence[j] {
      TierIndexOfListed(i, op);
      TierIndexOfListed(j, op);
    }
  }

  /** The tiers together hold exactly the binary operators. */
  lemma TiersCoverBinaryOperators(op: string)
    ensures op in BinaryOperators <==> exists i :: 0 <= i < |BinaryOperatorPrecedence| && op in BinaryOperatorPrecedence[i]
  {
    var T := BinaryOperatorPrecedence;
    if op in BinaryOperators {
      BinaryOperatorsHaveTiers(op);
      ListedOfTierIndex(op);
    }
    if exists i :: 0 <= i < |T| && op in T[i] {
      var i :| 0 <= i < |T| && op in T[i];
      TierIndexOfListed(i, op);
      TieredAreBinaryOperators(op);
    }
  }

  lemma BinaryOperatorsHaveTiers(op: string)
    requires op in BinaryOperators
    ensures TierIndex(op) >= 0
  {
  }

  lemma TieredAreBinaryOperators(op: string)
    requires TierIndex(op) >= 0
    ensures op in BinaryOperators
  {
  }

  /** The ambiguous operators are both unary and binary operators. */
  lemma AmbiguousAreUnaryAndBinary(op: string)
    requires op in AmbiguousOperators
    ensures op in UnaryOperators && op in BinaryOperators
  {
  }

  /** Every operator spelling is made of operator characters, so the greedy
      operator run of the tokenizer can read it. */
  lemma OperatorSpellingsUseOperatorChars(op: string, k: nat)
    requires op in UnaryOperators || op in BinaryOperators
    requires k < |op|
    ensures op[k] in OperatorInitialChars && op[k] in OperatorInternalChars
  {
  }

  /** The identifier characters are letters and backslash; `i` and `I` are not among them. */
  lemma IdentifierCharacters(c: char)
    ensures c in IdentifierInitialChars ==>
      ('a' <= c <= 'z' && c != 'i') || ('A' <= c <= 'Z' && c != 'I') || c == '\\'
    ensures 'i' !in IdentifierInitialChars && 'I' !in IdentifierInitialChars
    ensures IdentifierInitialChars[8] == IdentifierInitialChars[14] == 'o'
    ensures IdentifierInitialChars[34] == IdentifierInitialChars[40] == 'O'
    ensures |IdentifierInitialChars| == 53
  {
    IdentifierCharRange(c);
    IdentifierTableLayout();
  }

  lemma IdentifierCharRange(c: char)
    ensures c in IdentifierInitialChars ==>
      ('a' <= c <= 'z' && c != 'i') || ('A' <= c <= 'Z' && c != 'I') || c == '\\'
  {
    assert c in IdentifierInitialChars ==>
      c in "abcdefgh" || c in "ojklmn" || c in "opqrstuvwxyz" ||
      c in "ABCDEFGH" || c in "OJKLMN" || c in "OPQRSTUVWXYZ" || c == '\\';
    if c in "abcdefgh" {
    } else if c in "ojklmn" {
    } else if c in "opqrstuvwxyz" {
    } else if c in "ABCDEFGH" {
    } else if c in "OJKLMN" {
    } else if c in "OPQRSTUVWXYZ" {
    }
  }

  lemma IdentifierTableLayout()
    ensures 'i' !in IdentifierInitialChars && 'I' !in IdentifierInitialChars
    ensures IdentifierInitialChars[8] == IdentifierInitialChars[14] == 'o'
    ensures IdentifierInitialChars[34] == IdentifierInitialChars[40] == 'O'
    ensures |IdentifierInitialChars| == 53
  {
    IdentifierCharRange('i');
    IdentifierCharRange('I');
    var lower := "abcdefgh" + "ojklmn" + "opqrstuvwxyz";
    var upper := "ABCDEFGH" + "OJKLMN" + "OPQRSTUVWXYZ";
    assert IdentifierInitialChars == lower + upper + "\\";
    assert |lower| == 26 && |upper| == 26;
    assert lower[8] == 'o' && lower[14] == 'o';
    assert upper[8] == 'O' && upper[14] == 'O';
  }

  /** The missing `i` leaves builtin names out of reach of the identifier run:
      `sin`, `pi`, `\inbase` and `\precision` are listed as builtins, yet
      each has a character the identifier table lacks. */
  lemma BuiltinNamesOutsideIdentifierChars()
    ensures "sin" in BuiltinUnaryFunctions && "sin"[1] !in IdentifierInitialChars
    ensures "pi" in BuiltinVariableIdentifiers && "pi"[1] !in IdentifierInitialChars
    ensures "\\inbase" in BuiltinVariableIdentifiers && "\\inbase"[1] !in IdentifierInitialChars
    ensures "\\precision" in BuiltinVariableIdentifiers && "\\precision"[7] !in IdentifierInitialChars
  {
    IdentifierCharacters('i');
  }

  /** The identifier characters as evidently intended: all 26 letters in
      both cases, and backslash. The tokenizer takes its identifier table as
      a parameter; over this set it reads every builtin name whole. */
  const LowerLetters: string := "abcdefghijklmnopqrstuvwxyz"
  const UpperLetters: string := "ABCDEFGHIJKLMNOPQRSTUVWXYZ"
  const IdentifierChars: string := LowerLetters + UpperLetters + "\\"

  /** Every letter, `i` and `I` included, and backslash is an identifier character. */
  lemma IdentifierCharsAreLetters(c: char)
    requires 'a' <= c <= 'z' || 'A' <= c <= 'Z' || c == '\\'
    ensures c in IdentifierChars
  {
    if 'a' <= c <= 'z' {
      var k := (c as int) - ('a' as int);
      assert LowerLetters[k] == c;
      assert IdentifierChars[k] == c;
    } else if 'A' <= c <= 'Z' {
      var k := (c as int) - ('A' as int);
      assert UpperLetters[k] == c;
      assert IdentifierChars[26 + k] == c;
    } else {
      assert IdentifierChars[52] == c;
    }
  }

  /** Lower-case letters and backslash only. */
  predicate LowerName(s: string)
  {
    forall k :: 0 <= k < |s| ==> 'a' <= s[k] <= 'z' || s[k] == '\\'
  }

  /** With the intended set every builtin name is made of identifier
      characters, so the identifier run reads each of them whole. */
  lemma BuiltinNamesAreIdentifierChars(name: string, k: nat)
    requires name in BuiltinUnaryFunctions || name in BuiltinBinaryFunctions ||
             name in BuiltinVariableIdentifiers
    requires k < |name|
    ensures name[k] in IdentifierChars
  {
    assert LowerName(name);
    IdentifierCharsAreLetters(name[k]);
  }

  // ---------------------------------------------------------------------
  // Numeral patterns

  /** Every character of `s` is in `cs`. */
  predicate AllIn(s: string, cs: string)
  {
    forall k :: 0 <= k < |s| ==> s[k] in cs
  }

  /** `[body]*[last]`: at least one character, the last in `last`, the others in `body`. */
  predicate EndsIn(s: string, body: string, last: string)
  {
    |s| >= 1 && AllIn(s[..|s| - 1], body) && s[|s| - 1] in last
  }

  /** `(?:[body]*[last])?` */
  predicate OptEndsIn(s: string, body: string, last: string)
  {
    s == [] || EndsIn(s, body, last)
  }

  /** `A[.,]B`: one fractional separator splits `s` into a whole part
      accepted by `whole` and a fractional part accepted by `frac`. */
  predicate SeparatedBy(s: string, whole: string -> bool, frac: string -> bool)
  {
    exists k :: 0 <= k < |s| && s[k] in ".," && whole(s[..k]) && frac(s[k + 1..])
  }

  /** `0[xy]` with the second character one of `letters`. */
  predicate PrefixedBy(s: string, letters: string)
  {
    |s| >= 2 && s[0] == '0' && s[1] in letters
  }

  /** BASE_PREFIX `^0[bBdDoOxX]` */
  predicate BasePrefix(s: string)
  {
    PrefixedBy(s, "bBdDoOxX")
  }

  /** BINARY_INTEGER `^0[bB][01_]*[01]$` */
  predicate BinaryInteger(s: string)
  {
    PrefixedBy(s, "bB") && EndsIn(s[2..], "01_", "01")
  }

  /** BINARY_RATIONAL `^0[bB][01_]*[.,](?:[01_]*[01])?$` */
  predicate BinaryRational(s: string)
  {
    PrefixedBy(s, "bB") &&
    SeparatedBy(s[2..], w => AllIn(w, "01_"), f => OptEndsIn(f, "01_", "01"))
  }

  /** OCTAL_INTEGER `^0[oO][0-7_]*[0-7]$` */
  predicate OctalInteger(s: string)
  {
    PrefixedBy(s, "oO") && EndsIn(s[2..], "01234567_", "01234567")
  }

  /** OCTAL_RATIONAL `^0[oO][0-7_]*[.,](?:[0-7_]*[0-7])?$` */
  predicate OctalRational(s: string)
  {
    PrefixedBy(s, "oO") &&
    SeparatedBy(s[2..], w => AllIn(w, "01234567_"), f => OptEndsIn(f, "01234567_", "01234567"))
  }

  const HexDigits: string := "0123456789abcdefABCDEF"
  const HexDigitsOrUnderscore: string := "0123456789abcdefABCDEF_"
  const DigitsOrUnderscore: string := "0123456789_"

  /** HEXADECIMAL_INTEGER `^0[xX][0-9a-fA-F_]*[0-9a-fA-F]$` */
  predicate HexadecimalInteger(s: string)
  {
    PrefixedBy(s, "xX") && EndsIn(s[2..], HexDigitsOrUnderscore, HexDigits)
  }

  /** HEXADECIMAL_RATIONAL `^0[xX][0-9a-fA-F_]*[.,](?:[0-9a-fA-F_]*[0-9a-fA-F])?$` */
  predicate HexadecimalRational(s: string)
  {
    PrefixedBy(s, "xX") &&
    SeparatedBy(s[2..], w => AllIn(w, HexDigitsOrUnderscore), f => OptEndsIn(f, HexDigitsOrUnderscore, HexDigits))
  }

  /** `[0-9](?:[0-9_]*[0-9])?` */
  predicate DigitRun(s: string)
  {
    |s| >= 1 && s[0] in Digits && OptEndsIn(s[1..], DigitsOrUnderscore, Digits)
  }

  /** DECIMAL_INTEGER `^(?:0[dD]_?[0-9]|[0-9])(?:[0-9_]*[0-9])?$` */
  predicate DecimalInteger(s: string)
  {
    DigitRun(s) ||
    (PrefixedBy(s, "dD") && (DigitRun(s[2..]) || (|s| >= 3 && s[2] == '_' && DigitRun(s[3..]))))
  }

  /** The body of DECIMAL_RATIONAL after its optional prefix:
      `(?:[0-9]*|[0-9][0-9_]*)[.,](?:[0-9]*|[0-9_]*[0-9])` */
  predicate DecimalRationalBody(s: string)
  {
    SeparatedBy(s, DecimalWholePart, DecimalFractionPart)
  }

  /** `[0-9]*|[0-9][0-9_]*`: empty, or a digit followed by digits and underscores. */
  predicate DecimalWholePart(w: string)
  {
    w == [] || (w[0] in Digits && AllIn(w[1..], DigitsOrUnderscore))
  }

  /** `[0-9]*|[0-9_]*[0-9]`: digits only, or digits and underscores ending in a digit. */
  predicate DecimalFractionPart(f: string)
  {
    AllIn(f, Digits) || EndsIn(f, DigitsOrUnderscore, Digits)
  }

  /** DECIMAL_RATIONAL `^(?:0[dD]_?)?(?:[0-9]*|[0-9][0-9_]*)[.,](?:[0-9]*|[0-9_]*[0-9])$` */
  predicate DecimalRational(s: string)
  {
    DecimalRationalBody(s) ||
    (PrefixedBy(s, "dD") && (DecimalRationalBody(s[2..]) || (|s| >= 3 && s[2] == '_' && DecimalRationalBody(s[3..]))))
  }

  /** BASE_PREFIX holds exactly of strings that begin with `0` and a base letter. */
  lemma BasePrefixLetters(s: string)
    ensures BasePrefix(s) <==> |s| >= 2 && s[..2] in {"0b", "0B", "0d", "0D", "0o", "0O", "0x", "0X"}
  {
    if |s| >= 2 {
      assert s[..2] == [s[0], s[1]];
    }
  }

  /** A binary integer literal is `0b`/`0B`, then binary digits and
      underscores, ending in a binary digit. */
  lemma BinaryIntegerShape(s: string)
    ensures BinaryInteger(s) <==>
      |s| >= 3 && s[..2] in {"0b", "0B"} && AllIn(s[2..], "01_") && s[|s| - 1] in "01"
  {
    if |s| >= 3 {
      assert s[..2] == [s[0], s[1]];
      AllInButLast(s[2..], "01_", "01");
    }
  }

  /** `[body]*[last]` over a non-empty string: all characters but the last
      in `body`, the last in `last`; when `last` is part of `body`, the same
      as all in `body` with the last in `last`. */
  lemma AllInButLast(t: string, body: string, last: string)
    requires |t| >= 1
    requires forall c :: c in last ==> c in body
    ensures EndsIn(t, body, last) <==> AllIn(t, body) && t[|t| - 1] in last
  {
    var u := t[..|t| - 1];
    if AllIn(t, body) {
      forall k | 0 <= k < |u| ensures u[k] in body {
        assert u[k] == t[k];
      }
    }
    if EndsIn(t, body, last) {
      forall k | 0 <= k < |t| ensures t[k] in body {
        if k < |u| { assert u[k] == t[k]; }
      }
    }
  }

  /** A decimal integer literal: an optional `0d`/`0D` prefix followed by at
      most one underscore, then digits with underscores only in the interior. */
  lemma DecimalIntegerShape(s: string)
    ensures DecimalInteger(s) <==>
      InteriorUnderscores(s) ||
      (|s| >= 3 && s[..2] in {"0d", "0D"} &&
        (InteriorUnderscores(s[2..]) || (s[2] == '_' && InteriorUnderscores(s[3..]))))
  {
    DigitRunInterior(s);
    if |s| >= 2 {
      DigitRunInterior(s[2..]);
      assert s[..2] == [s[0], s[1]];
    }
    if |s| >= 3 {
      DigitRunInterior(s[3..]);
      assert s[2..][1..] == s[3..];
    }
  }

  /** `[0-9](?:[0-9_]*[0-9])?` is a run of digits and underscores that
      begins and ends with a digit. */
  lemma DigitRunInterior(s: string)
    ensures DigitRun(s) <==> InteriorUnderscores(s)
  {
    if |s| >= 2 {
      var t := s[1..];
      AllInButLast(t, DigitsOrUnderscore, Digits);
      assert t[|t| - 1] == s[|s| - 1];
      if AllIn(t, DigitsOrUnderscore) && s[0] in Digits {
        forall k | 0 <= k < |s| ensures s[k] in DigitsOrUnderscore {
          if k > 0 { assert s[k] == t[k - 1]; }
        }
      }
      if AllIn(s, DigitsOrUnderscore) {
        forall k | 0 <= k < |t| ensures t[k] in DigitsOrUnderscore {
          assert t[k] == s[k + 1];
        }
      }
    }
  }

  /** Digits and underscores, beginning and ending with a digit. */
  predicate InteriorUnderscores(s: string)
  {
    |s| >= 1 && s[0] in Digits && s[|s| - 1] in Digits && AllIn(s, DigitsOrUnderscore)
  }
}
