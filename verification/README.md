# Models of bash and minishell

This project models five parts of the repository and proves what they are for. `dafny verify dfyconfig.toml`
checks all of it.

* **Arithmetic (`bash/expr.c`).** `Int64`, `Literals`, `ExprLex`, `ExprGrammar`, `ExprUnambiguous`, `ExprSemantics`,
  `ExprRuns`, `ExprEvaluator`, `ExprResults`, `ExprIrregular`, `ExprRejected`, `ExprWords`, `ExprValues`, `ExprTable`,
  `ExprNames`. The evaluator parses and evaluates in one pass over global variables, reads one token ahead and looks
  names up when it reads them, suppresses operands with `noeval`, and evaluates the values of variables as expressions
  in turn. `ExprEvaluator.Evaluator` is that program, with its globals as fields. The reference is a grammar of trees,
  given by a table of precedences, and an evaluation of trees from left to right. A text that is no expression has a
  tree too: its first tokens up to where reading stops, with a mark there. The main result is `EvalExp`: for every
  text and every store, self-referential ones included, one pass gives the value, the acceptance and the store of
  evaluating the tree; a rejected text leaves the store of evaluating its tree up to the error, or up to where reading
  stops. The evaluator accepts more than the table in one place (lines 923-927); `ExprIrregular` says for which texts
  and stores, and what they mean then. `ExprRejected` says what rejected texts can change. `ExprWords` writes every
  tree down, in the characters of its tokens, and reads it back; `ExprTable` and `ExprValues` spell out the
  precedences and the values of texts such as "x / y" without the functions that the evaluator computes them by.
* **Sparse arrays (`bash/array.c`).** `SparseEntries`, `SparseArray`. The circular doubly linked list with its
  sentinel, its cached maximum and size and its roving cursor is a heap model; every operation is proved against a map
  from subscripts to strings, whatever the cursor is.
* **Brace expansion (`bash/braces.c`, `bash/bracecomp.c`).** `BraceScan`, `BraceSequence`, `Braces`, `BraceWords`,
  `BraceCompletion`, `BraceRanges`, `BraceMembers`. The matcher, the expander and the sequence generator are proved
  against functions, and these against the product of the alternatives of a word, in which groups, sequences,
  substitutions and braces that stand for themselves may be nested in any way. Sequence expressions are followed from
  their text to the list of their members. The printer that factors a sorted list of names into a brace expression is
  undone by the expander.
* **The control skeleton of the executor (`bash/execute_cmd.c`, `bash/builtins/break.def`).** `ShellCommands`,
  `ShellLaws`, `Executor`, and `Coprocs` for the list of coprocesses. Loops that communicate through `breaking`,
  `continuing` and `loop_level`, and `set -e` with its flags in the command nodes, are proved against a structured
  semantics whose outcomes are normal, break k, continue k and exit; its laws say what each command means. Loops
  without an end are cut off by a bound; no run that ends depends on it, and one that is cut off has the trace that
  the semantics has up to there.
* **The front end of minishell (`42-minishell`).** `MiniTokens`, `MiniNumbers`, `MiniQuotes`, `MiniLexer`,
  `MiniGrammar`, `MiniParser`, `MiniHeredocs`, `MiniRoundTrip`, `MiniLines`, and `CanonPath` for path
  canonicalisation. The parser returns exactly the trees of the documented grammar. A tree comes from some line
  exactly if its words are made of quoted and bare pieces, and the lexer and the parser then read it back from its own
  text.

Programs that change things step by step are methods of classes whose fields are the globals or the structures of
the source. Each is proved against a function, and what the source promises is proved of the functions.

Conventions: `intmax_t` is the subset type `int64`, and arithmetic on it is wrapped explicitly. A `longjmp` is a
failure result. Strings are sequences of bytes. An oracle for the outside world is a parameter: `Substitution` for
the extent of command substitutions in braces, `World` for the status of simple commands and arithmetic in the
executor, `isDir` for the file system.

Where the code and its documentation differ, the models follow the code:

* `expr.c:923-927`: after `INTMAX_MIN % -1` a `continue` skips the assignment to `lasttok`, so that
  `y%x+=5` is accepted although `y%x` cannot be assigned to (`ExprIrregular.IrregularExists`).
* `expr.c:483-484`: what stands behind an expression is only noticed once the expression has been evaluated, so that
  `x=5)` is an error and sets `x` all the same (`ExprRejected.StrayParenthesis`). Over a store of integers, exactly
  the texts that are no expressions and assign something new before reading stops differ from parsing first and
  evaluating then (`ExprRejected.ParseFirstExact`).
* `execute_cmd.c:3811-3832`: a `continue` in the test of a loop does not always go on with the loop; whether it
  does depends on the status of the test (`ShellCommands.JumpInTest`, `ShellCommands.UntilContinueLeaves`).
* `parse1.c:4-8`: the comment lists a bare newline as a command line; it is rejected
  (`MiniGrammar.BareNewlineRejected`).
* `lexer3.c:5-29`: an escaped digit in front of `<` or `>` is a file descriptor and not a word
  (`MiniTokens.BackslashNext`, `MiniTokens.EscapedDigitIsDescriptor`).

## Model

| member | source | states |
|---|---|---|
| Int64.Ipow | bash/expr.c:947-961 | for every base and every exponent from 0 on, square-and-multiply ends with the power modulo 2^64 in the signed range |
| Int64.PowWrap | bash/expr.c:947-961 | wrapping the base first does not change the wrapped power |
| Int64.PowStep | bash/expr.c:952-958 | one turn of the loop, odd or even, keeps result times base to the exponent, under wrap-around |
| Literals.Strlong | bash/expr.c:1552-1636 | accepts and values every constant as the reference reading does: octal, hexadecimal, base#digits, with the same errors |
| Literals.DecimalLiteral | bash/expr.c:1538-1636 | a decimal constant means its value modulo 2^64 |
| Literals.BasedLiteral | bash/expr.c:1530-1636 | base#digits is the positional value modulo 2^64, for every base from 2 to 64 and any number of digits |
| Literals.LiteralRoundTrip | bash/expr.c:1530-1636 | printing n in the documented alphabet and reading it gives n back, for every base and every n up to INTMAX_MAX |
| Literals.HexLiteral | bash/expr.c:1563-1583 | "0x" or "0X" and hexadecimal digits, small or capital, mean the positional value in base 16 modulo 2^64 |
| Literals.OctalLiteral | bash/expr.c:1563-1583 | "0" and octal digits mean the positional value in base 8 modulo 2^64 |
| Literals.LetterDigits | bash/expr.c:1606-1617 | the digits: small letters from 10 on, capital letters the same up to base 36 and from 36 on above, "@" 62 and "_" 63 |
| Literals.BadLiteral | bash/expr.c:1619-1620 | a digit that the base does not have makes the constant an error, in each of its four forms |
| Literals.BadBase | bash/expr.c:1588-1604 | a base below 2 or above 64, and a base without a digit behind "#", are errors |
| Literals.DecimalText | bash/lib/sh/itos.c:40-47 | the text of a number: a minus sign exactly if it is negative, no leading zeros, and decimal digits that mean it |
| ExprLex.Lex | bash/expr.c:1318-1522 | a token ends behind its start, except at the end of the text; what "++" and "--" mean depends on the context |
| ExprLex.PeekAgrees | bash/expr.c:1379-1402 | the look ahead behind a name sees the same "=", name or error that reading on will see |
| ExprGrammar.ParseSound | bash/expr.c:495-1123 | what the levels parse is a well-formed tree whose leaves are the tokens consumed |
| ExprUnambiguous.Complete | bash/expr.c:21-67 | every tree of the grammar (the precedence table, and the assignments to `l % x` that lines 923-927 let through) is parsed from its leaves, whatever weaker token follows |
| ExprUnambiguous.GrammarExact | bash/expr.c:21-67 | a text is parsed to t exactly when t is a tree of the table extended by these assignments whose leaves are the tokens of the text |
| ExprUnambiguous.Unambiguous | bash/expr.c:21-67 | no text has two trees, also not with these assignments |
| ExprIrregular.TableGrammarExact | bash/expr.c:21-67 | a text is parsed to a tree without such an assignment exactly when this is a tree of the precedence table alone whose leaves are its tokens |
| ExprTable.TwoBinary | bash/expr.c:21-67 | the rows of the precedence table, operator by operator: of two binary operators the one of the stronger row binds first; within a row they group to the left, powers to the right |
| ExprTable.UnaryAndBinary | bash/expr.c:21-67 | prefix operators bind more strongly than every binary one, on either side of it |
| ExprTable.AssignAndBinary | bash/expr.c:21-67 | an assignment reaches to the next comma, and assignments group to the right |
| ExprTable.UpdateAndBinary | bash/expr.c:21-67 | the same for the assignment operators |
| ExprTable.CondAndBinary | bash/expr.c:21-67 | a conditional binds more weakly than every binary operator but the comma, in each of its three places |
| ExprWords.WrittenRead | bash/expr.c:1318-1522 | tokens written down in their characters, with blanks where two of them would run together and anywhere else, are read as these tokens |
| ExprWords.PrintedTree | bash/expr.c:416-493 | every tree whose names are names, written down in characters, is what its text is parsed to, and the text evaluates as the tree |
| ExprEvaluator.Evaluator.PushExp | bash/expr.c:266-286 | saves the context, and fails exactly at the nesting limit of 1024 |
| ExprEvaluator.Evaluator.PopExp | bash/expr.c:290-309 | puts back what the last push saved; without one it reports an underflow and changes nothing |
| ExprEvaluator.Evaluator.BindVariable | bash/expr.c:330-353 | stores the decimal text of the value, unless the variable is readonly |
| ExprEvaluator.Evaluator.ReadToken | bash/expr.c:1318-1522 | delivers the next token of the text and, for a name, the value that evaluating it now gives; fails only where no phrase can be accepted |
| ExprEvaluator.Evaluator.Peek | bash/expr.c:1379-1395 | reads one token ahead and leaves every global as it was |
| ExprEvaluator.Evaluator.ReadName | bash/expr.c:1342-1407 | looks a name up unless it is about to be assigned or evaluation is suppressed |
| ExprEvaluator.Evaluator.StreVal | bash/expr.c:1149-1256 | the value of a scalar is the value of its text; while evaluation is suppressed it is 0 and nothing happens |
| ExprEvaluator.Evaluator.SubExpr | bash/expr.c:458-493 | evaluates a text one level deeper; a normal return restores the saved context and the depth |
| ExprEvaluator.Evaluator.Operand | bash/expr.c:988-1021 | an operator is passed over and its operand evaluated: value, store and mark of the phrase behind it, and a failure only where that phrase cannot be accepted |
| ExprEvaluator.Evaluator.Branch | bash/expr.c:629-674 | the same with noeval raised: an operand that is stepped over changes no variable, and noeval is lowered again; a missing branch is noticed before descending |
| ExprEvaluator.Evaluator.ExpLoop | bash/expr.c:678-945 | the levels with a loop: parsing and evaluating at once agrees with the tree, for every left-associative operator, and noeval is restored |
| ExprEvaluator.Evaluator.Phrase | bash/expr.c:495-1123 | the same for a phrase of any level |
| ExprEvaluator.Evaluator.RoundComma | bash/expr.c:495-508 | the left value of a comma is dropped, its effects stay |
| ExprEvaluator.Evaluator.RoundLogical | bash/expr.c:677-730 | the right operand of a logical "and" or "or" is evaluated exactly if the left one does not decide; otherwise it changes no variable and raises no error |
| ExprEvaluator.Evaluator.RoundBinary | bash/expr.c:732-886 | the operators that cannot fail |
| ExprEvaluator.Evaluator.RoundMulDiv | bash/expr.c:888-945 | "*", "/" and "%", with division by zero, and the skipped assignment to lasttok |
| ExprEvaluator.Evaluator.ApplyMulDiv | bash/expr.c:908-942 | truncated division, the wrapped product, and INTMAX_MIN by -1 |
| ExprEvaluator.Evaluator.ExpPower | bash/expr.c:963-986 | "**" associates to the right; a negative exponent is an error only if it is evaluated |
| ExprEvaluator.Evaluator.ExpUnary | bash/expr.c:988-1021 | the prefix operators |
| ExprEvaluator.Evaluator.ExpAssign | bash/expr.c:510-626 | assignments: the right side is evaluated first, then the operator is applied and the variable bound, once |
| ExprEvaluator.Evaluator.Store | bash/expr.c:547-622 | the last step of an assignment, with its errors |
| ExprEvaluator.Evaluator.ExpCond | bash/expr.c:629-674 | exactly one branch of a conditional is evaluated; the other one is only parsed |
| ExprEvaluator.Evaluator.Exp0 | bash/expr.c:1023-1123 | parentheses, constants, names, and "++" and "--" on either side of a name |
| ExprEvaluator.Evaluator.PreStepped | bash/expr.c:1034-1059 | "++x" and "--x" bind and give the new value |
| ExprEvaluator.Evaluator.PostStepped | bash/expr.c:1083-1109 | "x++" and "x--" give the old value and bind the new one |
| ExprEvaluator.Evaluator.EvalExp | bash/expr.c:416-493 | main result: value, acceptance and final store are those of evaluating the tree of the text, for every text and every store; a text that is no expression is evaluated up to where reading stops, and so is such a text in a variable; a rejected text gives 0; it always ends, and no context is left behind |
| ExprResults.StoredValueReadsBack | bash/expr.c:330-353 | the decimal text that an assignment stores evaluates to the assigned number, INTMAX_MIN included |
| ExprResults.IntLookup | bash/expr.c:1149-1256 | over a store of integers every lookup succeeds and changes nothing |
| ExprResults.OnlyAssignedChange | bash/expr.c:510-626 | over a store of integers evaluation changes at most the names that the tree assigns to and leaves integers, whether it fails or not |
| ExprRejected.TextTreeIs | bash/expr.c:458-493 | the tree of a text holds its first tokens in order, up to where reading stops; it breaks off exactly if the text is no expression, and otherwise it is what the text is parsed to |
| ExprRejected.BreakFails | bash/expr.c:458-493 | evaluation never gets over the place where reading stops: a tree that breaks off is an error for every store |
| ExprRejected.AcceptedParse | bash/expr.c:458-493 | whatever the store holds, only blank texts and expressions are accepted |
| ExprRejected.TextWrites | bash/expr.c:330-353 | for every text and every store, rejected ones included: no variable disappears, no readonly one changes, and every one that changes holds the decimal text of an integer |
| ExprRejected.OnlySteeredChange | bash/expr.c:510-626 | over a store of integers only names right before "=", an assignment operator, "++" or "--", or right behind one of the latter two, change, and integers remain; a text without such names leaves the store alone, whether it is an expression or not |
| ExprRejected.WritesAreAll | bash/expr.c:510-626 | over a store of integers the final store is the old one with the assignments that were made, as a function of the tree, the last one of each name |
| ExprRejected.ParseFirstExact | bash/expr.c:458-493 | over a store of integers the one pass agrees with parsing first and evaluating then exactly if the text is blank or an expression, or whatever it assigns before reading stops is in the store already |
| ExprRejected.StrayParenthesis | bash/expr.c:458-493 | "x=5)" is an error and leaves exactly the store with x set to 5, whatever the store was |
| ExprIrregular.TableExact | bash/expr.c:889-945 | over a store of integers the shell agrees with the precedence table exactly unless the text contains an assignment to `l % x`, the guard of line 923 (l is INTMAX_MIN, x is -1) holds wherever one is, and the tree with each of them replaced by `(l), x = 0 op (e)` succeeds by the table; wherever the guards hold the shell means this repaired tree, in value, store and failure |
| ExprIrregular.NoModTarget | bash/expr.c:889-945 | a condition on the text alone: where no "%", name and assignment operator follow each other, the shell and the precedence table agree in value, store and acceptance on every expression, and both reject every other text |
| ExprIrregular.RepairExact | bash/expr.c:918-928 | a tree whose guards hold evaluates as the repaired tree does, and any other tree fails |
| ExprIrregular.RepairRegular | bash/expr.c:918-928 | the repaired tree is one of the precedence table |
| ExprIrregular.IrregularExists | bash/expr.c:918-928 | "y%x+=5" with y INTMAX_MIN and x -1 is accepted and sets x to 5, and the table rejects it |
| ExprResults.GrammarIrrelevant | bash/expr.c:458-493 | over a store of integers the grammar of variable values does not matter |
| ExprResults.Bits64Bits | bash/expr.c:733-787 | bitwise "and", "or" and "xor" work bit by bit on the two's complement representation |
| ExprValues.RingOperators | bash/expr.c:865-942 | "x + y", "x - y" and "x * y" over a store that holds a and b are congruent to the sum, difference and product modulo 2^64 |
| ExprValues.Division | bash/expr.c:908-942 | with q and r the values of "x / y" and "x % y" over a store that holds a and b: a is q times b plus r, r is smaller than b and 0 or of the sign of a; INTMAX_MIN by -1 is INTMAX_MIN and 0; division by zero fails and changes nothing |
| ExprValues.Shifts | bash/expr.c:840-863 | a left shift multiplies by a power of two modulo 2^64, a right shift divides by one and rounds down, and only the last six bits of the count matter |
| ExprValues.BitOperators | bash/expr.c:732-787 | bit i of "x & y", of the exclusive "or" and of the inclusive one, for every i |
| ExprValues.Comparisons | bash/expr.c:789-838 | the comparisons are 1 or 0, exactly as the numbers compare |
| ExprValues.Powers | bash/expr.c:963-986 | "x ** y" is congruent to the power modulo 2^64; a negative exponent fails |
| ExprValues.Commas | bash/expr.c:495-508 | "x , y" has the value of y |
| ExprValues.Prefixes | bash/expr.c:988-1021 | "- x", "+ x", "! x" and "~ x", by what the numbers satisfy |
| ExprValues.Steps | bash/expr.c:1034-1109 | "++ x", "-- x", "x ++" and "x --" store a number one larger or smaller modulo 2^64 and give the new or the old one; a readonly x keeps its value |
| ExprValues.Assignments | bash/expr.c:510-626 | "x = y" stores and gives the value of y |
| ExprValues.Updates | bash/expr.c:547-622 | "x op= y" stores and gives what "x op y" gives, for each of the ten operators, and fails where it fails |
| ExprValues.Connectives | bash/expr.c:677-730 | "x && y ++" and its counterpart with "or": 1 or 0, and y is stepped exactly if x does not decide |
| ExprValues.Conditionals | bash/expr.c:629-674 | of the two branches of a conditional exactly one is evaluated, by whether x is 0 |
| ExprValues.BlankTexts | bash/expr.c:458-493 | a text of blanks is 0 |
| ExprValues.Names | bash/expr.c:1149-1256 | a name has the value of what it holds, in parentheses too, and is 0 if it is not set |
| ExprValues.SelfReference | bash/expr.c:266-286 | a variable that holds its own name is an error |
| ExprNames.ValueChain | bash/expr.c:266-286 | of variables each of which holds the name of the next one, the first has the value at the end of the chain exactly if there are less than 1024 of them; otherwise it is an error |
| ExprNames.StrayName | bash/expr.c:1380-1404 | "x y" is an error, but y is looked up all the same: what its value does to the store is what "x , y" does |
| ExprNames.StrayTarget | bash/expr.c:1380-1401 | in "x y = 5" the second name is not looked up |
| SparseEntries.PopAfterPush | bash/array.h:155-158 | popping after pushing restores every array, the empty one included |
| SparseEntries.ShiftedMap | bash/array.c:192-243 | removing the first n elements and lowering the other subscripts by n keeps them valid, and is this map |
| SparseEntries.InsertMap | bash/array.c:515-595 | an entry spliced in between its neighbours is an update of the map, and the list stays sorted |
| SparseEntries.RemoveMap | bash/array.c:601-651 | an entry cut out is a removal from the map |
| SparseEntries.MapDetermines | bash/array.c:68-78 | a map has only one sorted list, so that statements about maps pin down the lists |
| SparseEntries.DenseList | bash/array.c:722-731 | an array made from a list of words has exactly these words as its values, in order |
| SparseEntries.FromIs | bash/array.c:376-416 | what the first element of a subrange is |
| SparseEntries.IndexBound | bash/array.c:192-243 | the k-th element has a subscript of at least k |
| SparseArray.Array.constructor | bash/array.c:80-94 | the empty array |
| SparseArray.Array.Start | bash/array.c:544-561 | where a search starts and which way it goes: always toward the subscript |
| SparseArray.Array.Insert | bash/array.c:515-595 | a[i] = v as an update of the map, for every cursor; the ring, the size and the maximum stay right, and "problem" is never returned |
| SparseArray.Array.InsertInside | bash/array.c:567-591 | the search within the range finds the place |
| SparseArray.Array.Search | bash/array.c:656-703 | the search of array_reference and array_remove finds the element with subscript i exactly if there is one, from every cursor and in both directions |
| SparseArray.Array.Remove | bash/array.c:601-651 | removes exactly the element with subscript i and returns it; the cursor stays in the array |
| SparseArray.Array.Reference | bash/array.c:656-703 | the value at i for every cursor, or none; a successful search leaves the cursor there |
| SparseArray.Array.Shift | bash/array.c:192-243 | takes the first n elements out, as a list of their own or disposed of, and renumbers the others |
| SparseArray.Array.ShiftAll | bash/array.c:204-218 | the case that nothing remains |
| SparseArray.Array.SplitOff | bash/array.c:219-227 | cuts the ring in two |
| SparseArray.Array.RShift | bash/array.c:250-281 | moves all subscripts up, and puts in a new first element |
| SparseArray.Array.Copy | bash/array.c:124-142 | an independent copy, with its cursor at the same subscript |
| SparseArray.Array.Slice | bash/array.c:148-166 | the elements from s up to e; the result is a valid array exactly if s is not e |
| SparseArray.Array.Flush | bash/array.c:96-112 | empties the array |
| SparseArray.Array.Subrange | bash/array.c:376-416 | up to n values, from the first subscript that is at least start |
| SparseArray.Array.ToWordList | bash/array.c:708-720 | the values in the order of the subscripts |
| SparseArray.Array.AssignList | bash/array.c:771-780 | the words become the elements 0, 1, 2, ..., others stay |
| SparseArray.Array.FromWordList | bash/array.c:722-731 | reading the words of the new array back gives the list |
| BraceScan.BraceGobbler | bash/braces.c:637-805 | the quote-aware search for "{", "," or "}" finds what the reference scan finds |
| BraceSequence.Mkseq | bash/braces.c:372-476 | declines exactly if the increment or the distance is not representable; otherwise it gives all terms, without an overflow in the loop |
| BraceSequence.StaysBetween | bash/braces.c:372-476 | all terms lie between start and end |
| BraceSequence.NoFurtherTerm | bash/braces.c:372-476 | one more step would pass the end |
| BraceSequence.StepsFit | bash/braces.c:372-476 | the i-th term is start plus i steps toward the end |
| BraceSequence.PaddedTerm | bash/braces.c:428-442 | a padded term has at least the asked width, keeps its minus sign in front and denotes the same number |
| BraceSequence.ReadRightEnd | bash/braces.c:546-580 | the right end and the increment, read step by step, are those of the reading whose meaning `BraceRanges.SequenceParses` states |
| BraceSequence.PadWidth | bash/braces.c:602-620 | the terms are padded exactly if one end has a leading zero behind its sign, and then to the longer end |
| BraceSequence.ExpandSeqterm | bash/braces.c:516-626 | gives exactly the terms whose meaning `BraceRanges.SequenceParses`, `BraceRanges.NumberMembers` and `BraceRanges.LetterMembers` state, or none |
| Braces.ArrayConcat | bash/braces.c:812-873 | with its shortcuts and its loops it is the product of two lists, in order |
| Braces.ProductAt | bash/braces.c:812-873 | where which pair stands in a product |
| Braces.ProductUnit | bash/braces.c:825-835 | the list of the empty string is the unit of the product |
| Braces.ProductAssoc | bash/braces.c:812-873 | the product is associative |
| Braces.FirstExpression | bash/braces.c:122-156 | which open brace begins the first expression, and where its amble ends; that a brace which begins none is passed over, whatever is in it, is `BraceWords.ExpandPrinted` |
| Braces.BraceExpand | bash/braces.c:103-293 | ends on every text, and gives preamble times amble times postamble; what that is for words is `BraceWords.ExpandPrinted` |
| Braces.ExpandAmble | bash/braces.c:299-365 | the expansions of the pieces between the top-level commas, one after the other |
| Braces.QuotedExpand | bash/braces.c:103-293 | a text whose open braces are all quoted or escaped expands to itself |
| BraceWords.ExpandPrinted | bash/braces.c:103-365 | main result: a printed word, with groups, sequences, quoted texts, `${...}` and substitutions nested in any way, and with braces that stand for themselves anywhere (groups without a comma, open braces that are never closed, closing ones that were never opened), expands to exactly the strings it denotes, in order |
| BraceCompletion.BackslashQuote | bash/lib/sh/shquote.c:257-306 | a backslash is put in front of every shell metacharacter and of a leading "#", and of nothing else |
| BraceCompletion.QuotedCharacters | bash/lib/sh/shquote.c:43-83 | which characters get a backslash, one by one, and "#" only at the start |
| BraceCompletion.UnquoteQuote | bash/lib/sh/shquote.c:257-306 | quote removal gives back what was quoted, for every string and whatever follows it |
| BraceCompletion.StringGcd | bash/bracecomp.c:47-62 | the length of the longest common prefix |
| BraceCompletion.GcdMonotone | bash/bracecomp.c:47-148 | along a sorted list the common prefix with a name never gets longer |
| BraceCompletion.NameOrder | bash/bracecomp.c:150-160 | the comparison of the sort is a total order of the names |
| BraceCompletion.FirstBytesOrder | bash/bracecomp.c:150-160 | bytes from 0x80 on come first if char is signed, and last if it is not |
| BraceCompletion.SortedGathered | bash/bracecomp.c:150-160 | sorting by the first byte as char, signed or not, and by strcmp between names that begin alike brings names with a common prefix together |
| BraceCompletion.Splits | bash/bracecomp.c:64-148 | a group of several names falls into at least two once its common prefix is taken off, so that the recursion ends |
| BraceCompletion.NextGroup | bash/bracecomp.c:86-98 | the inner loop: where a group ends and how much its names share |
| BraceCompletion.Subterm | bash/bracecomp.c:113-136 | what is written for one group |
| BraceCompletion.ReallyMungeBraces | bash/bracecomp.c:64-148 | the printer writes the word that factors the names: for every group its common prefix, and its rests in braces |
| BraceCompletion.RoundTrip | bash/bracecomp.c:64-148 | brace expansion and quote removal of what is printed give back every list in which names with a common prefix stand together, in order, with duplicates, whatever bytes the names contain |
| BraceCompletion.SortedRoundTrip | bash/bracecomp.c:162-181 | for every list of names and every order that the sort may give it: the word printed stands for exactly these names |
| BraceCompletion.RoundTripSafe | bash/bracecomp.c:64-148 | for names free of shell metacharacters brace expansion alone does |
| BraceCompletion.QuotedText | bash/bracecomp.c:74-79 | the same where there is only one name |
| BraceCompletion.NothingToFactor | bash/bracecomp.c:64-148 | the printed word has nothing left to factor: no two neighbouring alternatives of any group in it begin alike |
| BraceRanges.ReadsBack | bash/braces.c:549-556 | the bounds of a range are read as the numbers they were printed from |
| BraceRanges.NumeralRead | bash/braces.c:542-576 | a signed run of digits is read as its value up to what follows it, and reported as too large exactly if it does not fit |
| BraceRanges.SequenceParses | bash/braces.c:516-626 | a text x..y or x..y..z has the members that its ends and its increment say: numbers, padded numbers or letters, and none if the ends are of different kinds or a number or a distance does not fit |
| BraceRanges.SequenceFound | bash/braces.c:479-514 | the scanner takes the text in the braces for a sequence exactly if its ends are of one kind |
| BraceRanges.SequenceExpands | bash/braces.c:104-293 | main result on sequences: {x..y} and {x..y..z}, for numerals with signs and leading zeros and for letters, expand to their members, and stay as they are if they have none |
| BraceRanges.NumberMembers | bash/braces.c:372-476 | the members are numerals for the numbers from one end toward the other in steps of the increment, as many as fit; as wide as the longer end if an end has a leading zero, and plain decimal text otherwise |
| BraceRanges.LetterMembers | bash/braces.c:372-476 | the members are the single characters from one letter toward the other in steps of the increment |
| BraceRanges.IntegerRange | bash/braces.c:372-626 | {a..b} is the list of all integers from a to b, whenever their distance can be represented |
| BraceMembers.NumberSequence | bash/braces.c:372-626 | in the characters of the text: numerals with any sign and number of digits expand to numerals from one end to the other, k apart, of exactly the width of the longer end if an end has a leading zero; if a number, the increment or the distance does not fit into 63 bits and a sign, the text stays as it is |
| BraceMembers.LetterSequence | bash/braces.c:372-626 | the same for letters |
| BraceMembers.MixedSequence | bash/braces.c:479-514 | a letter and a numeral stay as they are |
| BraceMembers.RoughCheck | bash/braces.c:479-514 | the check of a text x..y before it is expanded: true exactly if both ends begin like numbers or both are single letters |
| BraceMembers.SpacesSkipped | bash/braces.c:542-576 | white space in front of a number is skipped, character by character |
| ShellCommands.RunSound | bash/execute_cmd.c:624-1234 | a run leaves no more loops than there are, exits only under set -e on a failure that is not ignored, and with "!" never; what has been run is never taken back |
| ShellCommands.OnlyLastExits | bash/execute_cmd.c:2922-2965 | of an AND-OR list only the last command can exit, and only if it is reached |
| ShellCommands.OnlyBranchExits | bash/execute_cmd.c:3861-3889 | the test of an if command never exits |
| ShellCommands.RunLonger | bash/execute_cmd.c:3795-3856 | a larger bound on the turns of loops changes nothing unless the bound was exceeded; then the trace is an initial piece of the longer one |
| ShellCommands.BoundIrrelevant | bash/execute_cmd.c:3795-3856 | any two bounds that are not exceeded give the same run |
| ShellCommands.JumpInTest | bash/execute_cmd.c:3807-3852 | a break or continue in the test of a while or until loop: the status of the test is looked at first; if it asks for the body, only a continue of this loop goes on, and every other jump leaves as from the body |
| ShellCommands.UntilContinueLeaves | bash/execute_cmd.c:3807-3852 | "until continue" ends at once with status 0 |
| ShellLaws.Inverted | bash/execute_cmd.c:1203-1207 | "!" in front of any command: the status, and the last status, is 1 if the command without "!" (run with failures ignored if set -e is in force) has status 0, and 0 otherwise; jumps and what happens are the same |
| ShellLaws.Commands | bash/execute_cmd.c:905-949 | a simple command or pipeline is run once; its status is the status, and with set -e a failure that is not ignored ends the shell |
| ShellLaws.Jumps | bash/builtins/break.def:62-149 | break n and continue n leave n loops, at most all; outside loops they do nothing, and with a number below 1 they fail and leave all loops |
| ShellLaws.Grouping | bash/execute_cmd.c:1068-1114 | braces around a command change nothing |
| ShellLaws.Lists | bash/execute_cmd.c:2860-2891 | a list is its first command and then its second, unless the first exits or jumps |
| ShellLaws.AndOrs | bash/execute_cmd.c:2922-2965 | an AND-OR list is its first command with failures ignored, and then the second exactly if the status asks for it |
| ShellLaws.Conditionals | bash/execute_cmd.c:3861-3889 | if: the test with failures ignored, then the branch its status selects; 0 without one |
| ShellLaws.InvertedCommands | bash/execute_cmd.c:905-949 | a simple command or pipeline behind "!" never exits, and its status is the opposite one |
| ShellLaws.InvertedAndOrs | bash/execute_cmd.c:2922-2965 | AND-OR lists behind "!" |
| ShellLaws.WhileRounds | bash/execute_cmd.c:3807-3852 | one turn of while and until, and what it leaves to the others |
| ShellLaws.ForRounds | bash/execute_cmd.c:3035-3120 | one turn of for |
| ShellLaws.ArithForRounds | bash/execute_cmd.c:3242-3296 | one turn of the arithmetic for |
| ShellLaws.CaseClauses | bash/execute_cmd.c:3698-3765 | one clause: passed over if it does not match; otherwise ";;" ends the command behind it, ";&" runs the next action and ";;&" goes on with the matching |
| Executor.ClearFits | bash/execute_cmd.c:624-1234 | a command without flags may be run in every mode |
| Executor.Shell.ExecuteTopLevel | bash/execute_cmd.c:624-1234 | main result: trace, status and exit are those of the structured semantics, also for a run that is cut off; the counters and the loop level are 0 behind the outermost loop; a command with CMD_IGNORE_RETURN never takes the ERREXIT jump; flags left behind by a run do no harm in another run in the same mode |
| Executor.Shell.ExecuteCommand | bash/execute_cmd.c:624-1234 | the same inside loops: the counters encode the outcome of the structured semantics, loop_level is restored, nothing happens while a loop is being left, and a run that is cut off has the trace of the semantics |
| Executor.Shell.ExecuteNode | bash/execute_cmd.c:650-1113 | whatever command is run: the status is inverted and recorded and the ERREXIT jump passed on exactly as in the semantics |
| Executor.Shell.Conclude | bash/execute_cmd.c:1203-1229 | behind every command the status is inverted by "!", in the sense of `ShellLaws.Inverted`, and becomes the last status |
| Executor.Shell.ExecuteSimple | bash/execute_cmd.c:905-949 | a failing simple command exits exactly under set -e, outside ignoring commands and without "!" |
| Executor.Shell.ExecuteBuiltin | bash/builtins/break.def:62-149 | break n and continue n set their counter to min(n, loop_level), outside loops nothing |
| Executor.Shell.ExecutePipeline | bash/execute_cmd.c:2702-2723 | the flag is handed to every element of an inverted or ignoring pipeline |
| Executor.Shell.ExecuteGroup | bash/execute_cmd.c:1068-1114 | a group passes its mode on to its body, and gives its body the say over status, jump and exit |
| Executor.Shell.ExecuteSeq | bash/execute_cmd.c:2860-2891 | ";" and newline: the second command runs unless a loop is being left |
| Executor.Shell.ExecuteAndOr | bash/execute_cmd.c:2922-2965 | AND-OR lists: the first command always runs with failures ignored |
| Executor.Shell.ExecuteIf | bash/execute_cmd.c:3861-3889 | the test runs with failures ignored, then exactly the branch its status selects; the status without a branch is 0 |
| Executor.Shell.LeaveLoop | bash/execute_cmd.c:3108-3119 | one loop fewer is left to leave: break k becomes break k-1 outside, continue k likewise, and continue 1 goes on with the loop |
| Executor.Shell.ExecuteWhile | bash/execute_cmd.c:3795-3856 | while and until: status, trace and jump of the semantics, for any number of turns; loop_level is restored |
| Executor.Shell.WhileRound | bash/execute_cmd.c:3807-3852 | one turn: the test with failures ignored, the body unless the test jumped or said no, and whether to go on |
| Executor.Shell.ExecuteFor | bash/execute_cmd.c:2989-3144 | for over words; a failing binding ends it |
| Executor.Shell.ForRound | bash/execute_cmd.c:3035-3120 | one turn: a failing binding ends the loop with status 1, otherwise the body runs and its counters decide |
| Executor.Shell.ExecuteArithFor | bash/execute_cmd.c:3218-3300 | the arithmetic for, with invalid expressions in any of the three places |
| Executor.Shell.ArithForRound | bash/execute_cmd.c:3242-3296 | one turn: an invalid test or step ends the loop with status 1, a test of 0 ends it, the step runs after a continue too |
| Executor.Shell.EvalArith | bash/execute_cmd.c:3162-3216 | an expression is evaluated once, and its value and validity are recorded in the trace |
| Executor.Shell.ExecuteCase | bash/execute_cmd.c:3643-3769 | case: the first match, fall-through and test-next |
| Executor.Shell.ExecuteClauses | bash/execute_cmd.c:3698-3765 | the first clause that matches is executed; without one the status stays what it was, which is 0 at the start |
| Executor.Shell.ExecuteClause | bash/execute_cmd.c:3745-3758 | a clause that matches runs, then those it falls through to; with test-next the matching goes on behind it; while a loop is being left the actions do nothing |
| Coprocs.List.Add | bash/execute_cmd.c:1910-1930 | appends to the sequence; head, tail and count agree with the chain |
| Coprocs.List.Delete | bash/execute_cmd.c:1932-1962 | removes and returns the first element with the pid, or nothing |
| Coprocs.List.Reap | bash/execute_cmd.c:1964-2004 | keeps exactly the elements that are not dead, in order, and never looks at what it has disposed of |
| Coprocs.List.Flush | bash/execute_cmd.c:2007-2023 | disposes of everything |
| Coprocs.List.Search | bash/execute_cmd.c:2045-2054 | the first element with the pid |
| Coprocs.List.SearchByName | bash/execute_cmd.c:2058-2067 | the first element with the name |
| Coprocs.List.FirstActive | bash/execute_cmd.c:2069-2078 | the pid of the first element that is not dead |
| Coprocs.KeepMembers | bash/execute_cmd.c:1964-2004 | what is kept is exactly what is not marked |
| Coprocs.KeepAppend | bash/execute_cmd.c:1964-2004 | keeping respects order and duplicates |
| Coprocs.KeepAll | bash/execute_cmd.c:1964-2004 | reaping without dead elements changes nothing |
| Coprocs.DeleteAfterAdd | bash/execute_cmd.c:1910-1962 | deleting undoes adding if the pid is new |
| MiniTokens.Next | 42-minishell/lexer1.c:58-83 | one token shortens the line, or ends double quotes; the line is left only with the newline token |
| MiniTokens.NextSuffix | 42-minishell/lexer1.c:58-83 | what is left is always an end of the line |
| MiniTokens.Tokens | 42-minishell/lexer1.c:58-83 | every newline-terminated line without a byte 0xFF has finitely many tokens, the last of which stops the parser |
| MiniTokens.FirstDifference | 42-minishell/libft/ft_atoi.c:39-51 | comparing digits from the left compares the numbers |
| MiniTokens.BackslashNext | 42-minishell/lexer3.c:31-57 | an escaped character is read as itself exactly if it is not a digit right before "<" or ">" |
| MiniTokens.EscapedDigitIsDescriptor | 42-minishell/lexer3.c:5-29 | "\2>x" redirects descriptor 2 |
| MiniTokens.BackslashedReadsBack | 42-minishell/lexer3.c:31-57 | a text quoted by backslashes comes back character by character, none of them expanded or an operator |
| MiniTokens.SingleQuotedReadsBack | 42-minishell/lexer2.c:66-90 | a text in single quotes comes back in one token |
| MiniQuotes.BackslashInside | 42-minishell/lexer3.c:31-57 | inside double quotes a backslash escapes both quotes, the back quote, "$", the backslash and NUL; before any other character it stands for itself |
| MiniQuotes.DoubleQuotedReadsBack | 42-minishell/lexer2.c:38-64 | every text without a newline or a byte 0xFF, written in double quotes with a backslash in front of each double quote, backslash, "$" and back quote, is read as pieces whose texts joined are that text |
| MiniRoundTrip.QuotedCommand | 42-minishell/interactive_shell.c:22-37 | lexer and parser together: a word quoted by backslashes is a command of one argument, which is that word |
| MiniRoundTrip.PrintedItems | 42-minishell/lexer1.c:58-83 | a sequence of words, redirections and operators, written with quotes, backslashes and blanks, is read back as that sequence |
| MiniRoundTrip.PrintedTree | 42-minishell/parse1.c:4-31 | main result: every tree of the grammar whose words are made of backslashed, single-quoted, double-quoted and bare pieces is lexed and parsed back to itself |
| MiniRoundTrip.WordTokens | 42-minishell/lexer1.c:58-83 | the text of a word, bare, quoted and escaped pieces in any order, is read as exactly these pieces |
| MiniRoundTrip.TokensDelivered | 42-minishell/lexer1.c:58-83 | the lexer delivers nothing else: every token of every line is such a piece, an operator, or a redirection whose descriptor fits into an int |
| MiniRoundTrip.TreesExactly | 42-minishell/parse1.c:4-31 | the trees that lines are read as are exactly the trees of the grammar whose words are made of such pieces |
| MiniLines.PipeThenList | 42-minishell/parse1.c:54-91 | the pipe symbol binds more strongly than ";": the tree of three words with one of each between them |
| MiniLines.Redirections | 42-minishell/parse2.c:134-169 | digits, a redirection operator and a word behind a command give that redirection of that descriptor to it, for each of the four operators |
| MiniLines.DefaultDescriptor | 42-minishell/lexer4.c:4-31 | without digits "<" and "<<" are for descriptor 0, ">" and ">>" for descriptor 1 |
| MiniHeredocs.HeredocsOfLeaves | 42-minishell/parse3.c:4-22 | the here-documents of a tree are the "<<" among its leaves, in order |
| MiniNumbers.IsIntOverflow | 42-minishell/libft/ft_atoi.c:39-51 | up to ten digits: true exactly if the signed number does not fit into an int; more digits always count as too many |
| MiniNumbers.IsLongOverflow | 42-minishell/libft/ft_atoi.c:25-37 | the same for long, up to 19 digits |
| MiniNumbers.Atoi | 42-minishell/libft/ft_atoi.c:53-76 | for every text: the number behind white space and a sign, cut off to an int modulo 2^32, or -1 or 0 where it does not fit into a long |
| MiniNumbers.AtoiExact | 42-minishell/libft/ft_atoi.c:53-76 | the result is the number exactly if it fits into an int; with more than 19 digits, only for a zero with a minus sign |
| MiniNumbers.AtoiReads | 42-minishell/libft/ft_atoi.c:53-76 | white space, a sign and digits, whatever follows them: the number if it fits, one that is congruent to it modulo 2^32 if it fits into a long, and otherwise -1 or, behind a minus sign, 0 |
| MiniLexer.TokenBuffer.Expand | 42-minishell/lexer3.c:83-98 | doubles the text buffer and keeps its contents |
| MiniLexer.TokenBuffer.Put | 42-minishell/lexer2.c:30-32 | appends a character; there is always room for one more |
| MiniLexer.Buffer.GetC | 42-minishell/lexer1.c:7-14 | the next byte, or EOF at the end |
| MiniLexer.Buffer.UngetC | 42-minishell/lexer1.c:16-24 | one step back, and out of the buffer exactly from position 0 |
| MiniLexer.Buffer.GetSpaces | 42-minishell/lexer2.c:92-115 | a run of blanks is one token; a newline is another |
| MiniLexer.Buffer.GetLtGt | 42-minishell/lexer4.c:4-31 | "<", "<<", ">" and ">>", with their default descriptors |
| MiniLexer.Buffer.GetSymbols | 42-minishell/lexer1.c:26-37 | ";", the pipe symbol, "<", ">" and their doubled forms give one operator token, and nothing else does |
| MiniLexer.Buffer.GetQuoted | 42-minishell/lexer1.c:39-56 | the opening or closing quote decides between the two kinds of quoted text; parse_die is not reached |
| MiniLexer.Buffer.Escaped | 42-minishell/lexer3.c:31-57 | the character behind a backslash is literal; before a newline, and in double quotes before a character that is not in the list of `MiniQuotes.BackslashInside`, the backslash itself is |
| MiniLexer.Buffer.ReadWord | 42-minishell/lexer2.c:12-36 | a word up to the next special character, "$" or backslash |
| MiniLexer.Buffer.ReadDoubleQuoted | 42-minishell/lexer2.c:38-64 | a piece of a double-quoted text; an unfinished one is a parse error, and the newline stays |
| MiniLexer.Buffer.ReadSingleQuoted | 42-minishell/lexer2.c:66-90 | the same for single quotes; their state is always left |
| MiniLexer.Buffer.CheckRedirectionWithFd | 42-minishell/lexer3.c:5-29 | digits right before a redirection are its descriptor, if they fit into an int |
| MiniLexer.Buffer.GetSpecial | 42-minishell/lexer1.c:58-75 | blanks, operators and quotes outside quotes give the next token, and otherwise nothing is consumed |
| MiniLexer.Buffer.GetWord | 42-minishell/lexer1.c:58-83 | a word, with the descriptor it may turn out to be, is the next token |
| MiniLexer.Buffer.GetToken | 42-minishell/lexer1.c:58-83 | main result: one call delivers the next token of the line in place, stays in the buffer, lowers (bytes left, inside double quotes) and never ends inside single quotes |
| MiniGrammar.CommandLineExact | 42-minishell/parse1.c:4-31 | a line is parsed to t exactly when t is a tree of the documented grammar whose leaves are the words and operators of the line, followed by a newline |
| MiniGrammar.OneReading | 42-minishell/parse1.c:4-91 | a line has at most one tree |
| MiniGrammar.BareNewlineRejected | 42-minishell/parse1.c:4-22 | a line without commands is not accepted |
| MiniGrammar.YieldIsInput | 42-minishell/parse2.c:5-169 | the leaves of the tree are the input tokens without the spaces, in order |
| MiniGrammar.ItemsFlat | 42-minishell/parse_utils.c:12-20 | grouping adjacent tokens into words loses nothing but the spaces |
| MiniGrammar.SequentialSound | 42-minishell/parse1.c:54-91 | without an error the parser returns trees of the grammar |
| MiniGrammar.SequentialComplete | 42-minishell/parse1.c:54-91 | it finds every tree of the grammar |
| MiniGrammar.RedirectionItems | 42-minishell/parse2.c:134-169 | a redirection has an error exactly where no word follows it |
| MiniParser.ConcatHeredocs | 42-minishell/parse3.c:4-22 | splices two lists in place: the chain from the result is the one list followed by the other |
| MiniParser.Parser.GetToken | 42-minishell/lexer1.c:58-83 | the next token becomes current; never asked for behind a stop token |
| MiniParser.Parser.ParseSkipSpaces | 42-minishell/parse_utils.c:12-20 | skips all spaces |
| MiniParser.Parser.ParseString | 42-minishell/parse2.c:99-132 | the longest run of text tokens |
| MiniParser.Parser.ParseRedirection | 42-minishell/parse2.c:134-169 | a redirection, its error flag, and a list entry for "<<" |
| MiniParser.Parser.ParseArguments | 42-minishell/parse2.c:64-97 | agrees with the parsing function; its list is the "<<" of its tree, in order |
| MiniParser.Parser.ParseCommand | 42-minishell/parse2.c:40-62 | a command is parsed exactly as the grammar has it, with the here-documents of its arguments |
| MiniParser.Parser.ParsePiped | 42-minishell/parse2.c:5-38 | the same for pipelines; an error where nothing follows the pipe symbol |
| MiniParser.Parser.ParseDelimiter | 42-minishell/parse1.c:33-52 | a ";" behind spaces, left as the current token |
| MiniParser.Parser.ParseSequential | 42-minishell/parse1.c:54-91 | the same for lists of commands |
| MiniParser.Parser.ParseCommandLine | 42-minishell/parse1.c:4-31 | main result: a tree is returned exactly if the tokens are a line of the grammar, and the spliced list holds all its "<<" redirections from left to right |
| CanonPath.FtSplit | 42-minishell/libft/ft_split.c:44-83 | the non-empty pieces between slashes, in order |
| CanonPath.ParentIsPop | 42-minishell/path.c:39-56 | going up in the text pops the last name; the root stays |
| CanonPath.JoinIsPush | 42-minishell/path.c:20-37 | joining in the text pushes a name |
| CanonPath.UpdatePath | 42-minishell/builtin_cd_path.c:6-25 | one component, as a step on the stack: "." stays, ".." goes up, any other name goes down (`CanonPath.DotStays`, `CanonPath.UpUndoes`, `CanonPath.UpAtRoot`) |
| CanonPath.CanonicalizePath | 42-minishell/builtin_cd_path.c:42-70 | the canonical path, or none as soon as a step is not a directory |
| CanonPath.DotStays | 42-minishell/builtin_cd_path.c:6-24 | "." changes nothing, wherever it stands |
| CanonPath.UpUndoes | 42-minishell/builtin_cd_path.c:6-24 | ".." undoes the name in front of it, wherever they stand |
| CanonPath.UpAtRoot | 42-minishell/builtin_cd_path.c:6-24 | ".." at the root changes nothing |
| CanonPath.TextDot | 42-minishell/builtin_cd_path.c:46-70 | p/./q has the canonical path of p/q |
| CanonPath.TextUp | 42-minishell/builtin_cd_path.c:46-70 | p/c/../q has the canonical path of p/q if p/c has one, and otherwise none |
| CanonPath.TextRoot | 42-minishell/builtin_cd_path.c:46-70 | /../q and /./q have that of /q, if the root is a directory |
| CanonPath.LeadingSlashes | 42-minishell/builtin_cd_path.c:26-39 | two leading slashes stay two; any other number, and none, becomes one |
| CanonPath.WalkExact | 42-minishell/builtin_cd_path.c:55-64 | it succeeds exactly if every stack on the way is a directory |
| CanonPath.PrefixesChecked | 42-minishell/builtin_cd_path.c:55-64 | every prefix of the resulting path was found to be a directory |
| CanonPath.SplitRender | 42-minishell/libft/ft_split.c:44-83 | splitting undoes rendering |
| CanonPath.WalkOn | 42-minishell/builtin_cd_path.c:42-70 | walking on from a canonical path leads where the whole walk leads |
| CanonPath.ResultForm | 42-minishell/builtin_cd_path.c:27-70 | no empty, "." or ".." component in a result; exactly two leading slashes are kept, any other number becomes one |
| CanonPath.Idempotent | 42-minishell/builtin_cd_path.c:42-70 | a canonical path is its own canonical path |

## Left out

Arithmetic:
- array subscripts, namerefs and unset variables under `set -u` (`bash/expr.c:355-400`, `bash/expr.c:1160-1250`): the build without arrays is modelled.
- shift counts outside 0 to 63 are taken modulo 64; C does not define them.
- the texts of error messages.

Arrays:
- SparseArray.Array.Slice: the result of an empty slice has the maximum 0 instead of -1 (`bash/array.c:158-164`), so it is a valid array exactly if the slice is not empty; the contract says so.
- SparseArray.Array.Insert: subscripts are unbounded integers from 0 on, so that overflow of `intmax_t` is not modelled; values are strings, never NULL.
- SparseArray.Array.Subrange: the joining and quoting of the resulting words (`bash/array.c:412`).
- freeing elements is dropping them.
- `array_from_argv` (`bash/array.c:828-837`), which writes to the wrong slot, quoting, pattern substitution and printing of arrays, and the alternative build in `bash/array2.c`.

Braces:
- `$(...)` and function substitutions (`extract_command_subst` is not part of this model): their extent is an oracle, and all results hold for every oracle.
- BraceWords.ExpandPrinted: the ends that the oracle gives for the substitutions of the word have to be the ones of the word.
- multibyte characters, interrupts, and failing allocations (`bash/braces.c:400-405`).
- BraceCompletion.ReallyMungeBraces: only for lists in which names with a common prefix stand together, as sorting brings about (`bash/bracecomp.c:170` sorts in multibyte locales; elsewhere readline sorts); with others the source may read behind the end of a name.

Executor:
- break and continue from within an arithmetic expression (`bash/execute_cmd.c:3249-3262`), interrupts, and the second command of a pipeline in the current shell.
- asynchronous commands, subshells, `select`, function definitions, `[[`, `((`, coprocess commands, traps, DEBUG, redirections, and the special jumps of POSIX mode.
- Executor.Shell.ExecutePipeline: the elements run in processes of their own, so the status of a pipeline is an oracle; only what happens to the flags is modelled.
- Executor.Shell.ExecuteNode: redirections, subshells, traps and timing of the cited lines.
- Executor.Shell.ExecuteSimple: the status of the command is an oracle that sees the trace; the failure of special builtins in POSIX mode is not modelled.
- Executor.Shell.EvalArith: expansion and evaluation of the text are one oracle answer, which the contract records in the trace.
- Executor.Shell.ExecuteCase: whether one of the patterns of a clause matches is one oracle answer.
- Executor.Shell.ExecuteTopLevel: `set -e` is on or off for the whole run; while and arithmetic for loops have a bound on their turns, and a run that exceeds it is reported as cut off, with the trace it has; all bounds are covered, and no other run depends on its bound (`ShellCommands.BoundIrrelevant`).
- the loop over the clauses of `case` is a recursion over their list.
- Coprocs.List.Delete: what the returned element is linked to is not stated. The status, descriptors and locks of a coprocess, and the single global coprocess of the default build, are not modelled.
- Coprocs.List.Add: a coproc that is in the list already, which the source would link a second time.

minishell:
- the function pointers `getc` and `ungetc` of the buffer, and its fixed size of 102400 bytes.
- MiniLexer.Buffer.GetToken: lines that contain the byte 0xFF or do not end in a newline; there `lex_ungetc` at the end would step back into the line.
- MiniParser.Parser.ParseCommandLine: a node of the tree is written once, so nodes are values; only the list of here-documents, which is spliced in place, is on the heap. What the lexer delivers is represented by the sequence of its tokens; the lexer does not look at the state of the parser.
- CanonPath.CanonicalizePath: the file system does not change during a call; allocation does not fail.

Everything around these parts: processes, descriptors, signals, line editing, history, the environment, `export`, `echo`, messages and disposal code, `bash/assoc.c`, and time formatting.
