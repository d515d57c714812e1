# Geometry sketchpad core, modelled in Dafny

The sketchpad is a React page around a JSXGraph drawing board. Three parts of
it carry logic of their own, and this project models and proves properties of
those three:

- **The construction-mode controller** (`App.tsx`). It keeps three mode flags:
  point, line and circle. It also keeps the ids and coordinates of the points
  placed for a pending line or circle.
  - A line or circle is committed once 2 or 3 points are placed. Each history
    entry records the object's id, its kind, a label in the current language,
    its colour and its data; line and circle entries also record the ids of
    their construction points.
  - Language changes relabel the history.
  - Deletion filters the history by id.
  - Clearing resets everything except the scales, the colour and the language.

  Module `App` has a class `App` with one field per piece of React state and
  one method per handler. The effects that React runs after a buffer changes
  (the two commits) or after the language changes (the relabelling) run at
  the end of the handler that triggers them. Each method states its whole new
  state through `State()`. Two invariants are kept:
  - `Valid()`: at most one mode is on, buffers are consistent and below their
    shape's arity, and a buffer is empty when its mode is off.
  - `LabelsCurrent()`: every history label is in the current language.
- **The board's own logic** (`components/JSXGraphBoard.tsx`), in modules
  `Expression`, `ExpressionExamples` and `Board`:
  - The expression normaliser of `plotFunction`: trim, lower-case,
    whole-word constant substitution, superscript
    digits to `^d`, and two implicit-multiplication passes.
  - The arity and resolvability guards of `drawLine` and `drawCircle`.
  - The set of objects `removeObject` hands to the library.

  The library's registry is a map from id to object. `create` becomes a
  parameter: the id the library gives a new shape, or a function from the
  normalised text to an id, or None where the library throws. The board's
  guard on its library instance (`boardRef.current` inside the board) is a
  parameter of `plotFunction`. For `drawLine`, `drawCircle` and
  `removeObject` a missing instance is an empty registry, and then nothing is
  built or removed (`Board.EmptyRegistryChangesNothing`).
- **The translation lookup** (`i18n.ts`), in module `I18n`: the Portuguese
  and English tables as total functions from a closed key type to a text or
  a template. `translated` falls back from the current language to English
  and then to the key's name.

Module `Format` models the two number-to-text conversions the texts use:
`String(n)` for the prompt counts, and `toFixed(2)` for point coordinates.
Module `Types` mirrors `types.ts`.

The circle constant is `Math.PI.toString()`, which is `3.141592653589793`.

The constants loop builds the pattern `\bname\b`. For `π` and `φ`, which are
not word characters, that pattern only matches between two word characters.
The normaliser therefore takes its word rule as a parameter: `RegexBoundary`
is the code as written, and `Standalone` is the whole-word rule the code
evidently means. Both are modelled and the board's methods take either. The
two give the same result on every expression without π and φ
(`Expression.NormalizeRulesAgree`). The discrepancy is logged under Findings.

The model also departs from the code where the section "Left out" says so,
notably in lower-casing only ASCII letters.

## Model

| member | source | states |
|---|---|---|
| Format.NatToString | i18n.ts:45-46 | a count is written as a non-empty string of decimal digits with no leading zero |
| Format.NatToStringRoundTrip | i18n.ts:45-46 | reading the numeral of n back as a decimal gives n |
| Format.Hundredths | App.tsx:80 | the integer nearest to 100·v, ties going up, as `toFixed` picks it |
| Format.Fixed2Denotes | App.tsx:80 | a number of hundredths is written as digits, a point and two digits, and those digits denote the number |
| Format.ToFixed2Rounds | App.tsx:80 | `toFixed(2)` starts with a minus exactly when x is negative; then come digits, a point and two digits, which denote abs(x) rounded to hundredths |
| Format.ToFixed2 | App.tsx:80 | defines `toFixed(2)`: a minus for a negative number, then the rounded hundredths of its magnitude; its properties are ToFixed2Rounds |
| I18n.Lookup | i18n.ts:91-111 | the current language's entry when it has the key; else the English entry; else the key's name; a template is applied to the arguments and a text is returned as is |
| I18n.KeyName | i18n.ts:110 | defines the key-name fallback: each key's dotted name as the tables spell it; Lookup is about it |
| I18n.Holes | i18n.ts:100-102 | defines a template's holes filled from the arguments, "undefined" for a missing one; HolesIgnoreExtraArgs, HolesOfTwo and HolesWithoutArgs are about it |
| I18n.Render | i18n.ts:100-107 | defines applying an entry: a template is called on the arguments, a text is returned as is; Lookup and TablesAreComplete are about it |
| I18n.Table | i18n.ts:92-96 | defines `translations[language][key]` for both languages; TablesAreComplete is about it |
| I18n.Portuguese | i18n.ts:8-41 | defines the Portuguese table, one text or template per key |
| I18n.English | i18n.ts:42-76 | defines the English table, one text or template per key |
| I18n.Translated | i18n.ts:91-111 | defines `translated` as the lookup over the current language's table and the English one; TablesAreComplete says which branch it takes |
| I18n.TablesAreComplete | i18n.ts:6-76 | both tables define every key, so for any arguments `translated` renders the current language's own entry and never needs its fallbacks |
| I18n.HolesIgnoreExtraArgs | i18n.ts:100-102 | extra arguments after a template's parameters do not change its text |
| I18n.HolesOfTwo | i18n.ts:67 | a two-parameter template puts each argument's text before its own part |
| I18n.HolesWithoutArgs | i18n.ts:100-102 | a template called with no arguments reads "undefined" in every hole, whatever its number of parameters |
| I18n.EnglishLinePrompt | i18n.ts:46 | the English line prompt for n is "Select point n of 2 for the line." |
| I18n.EnglishCirclePrompt | i18n.ts:45 | the English circle prompt for n is "Select point n of 3 for the circle." |
| I18n.FunctionLabel | i18n.ts:36-70 | a function entry's label is "f(x) = " followed by the text, in both languages |
| Expression.TrimStart | components/JSXGraphBoard.tsx:183 | the result is a suffix of the input, does not start with whitespace, and only whitespace was cut |
| Expression.IsJsWhitespace | components/JSXGraphBoard.tsx:183 | defines the WhiteSpace and LineTerminator characters `trim` strips; TrimStart, TrimEnd and TrimStrips are about it |
| Expression.TrimEnd | components/JSXGraphBoard.tsx:183 | the result is a prefix of the input, does not end with whitespace, and only whitespace was cut |
| Expression.TrimStrips | components/JSXGraphBoard.tsx:183-185 | the trimmed text has no whitespace at either end, and it is empty exactly when the input is all whitespace |
| Expression.Trim | components/JSXGraphBoard.tsx:183 | defines `trim` as leading then trailing whitespace removed; its properties are TrimStart, TrimEnd and TrimStrips |
| Expression.ToLowerAscii | components/JSXGraphBoard.tsx:187 | same length, no capital left, capitals lowered and every other character kept |
| Expression.IsWordChar | components/JSXGraphBoard.tsx:199 | defines a regular-expression word character, `[A-Za-z0-9_]`; NonWordEdgesNeedWordNeighbours and RulesAgreeOnWordNames are about it |
| Expression.WordAt | components/JSXGraphBoard.tsx:199 | defines a word character at a position, with outside the text counting as non-word; NonWordEdgesNeedWordNeighbours is about it |
| Expression.Boundary | components/JSXGraphBoard.tsx:199 | defines `\b` at a position: exactly one neighbour is a word character; NonWordEdgesNeedWordNeighbours is about it |
| Expression.MatchAt | components/JSXGraphBoard.tsx:199 | defines a whole-word match of a name at a position, under `\b` or under the standalone rule; RulesAgreeOnWordNames and StandaloneRemovesSymbol are about it |
| Expression.ReplaceFrom | components/JSXGraphBoard.tsx:200 | defines the global replace: scanning left to right, each match is replaced and the scan resumes after it; ReplaceCopiesBetweenMatches, ReplaceWithoutMatch and ReplaceCharsFrom are about it |
| Expression.ReplaceCopiesBetweenMatches | components/JSXGraphBoard.tsx:197-201 | between whole-word matches the global replace copies the text unchanged |
| Expression.ReplaceWithoutMatch | components/JSXGraphBoard.tsx:197-201 | a text without a whole-word match is left unchanged |
| Expression.ReplaceCharsFrom | components/JSXGraphBoard.tsx:200 | every character of the result comes from the text or from the replacement |
| Expression.ReplaceWord | components/JSXGraphBoard.tsx:199-200 | defines the replace with `\b` as written; PiSymbolIsKeptBetweenOperators is about it |
| Expression.Constants | components/JSXGraphBoard.tsx:189-195 | defines the constants table in its iteration order, each name with its value's JavaScript text; SymbolEntries and ConstantsAreWordOrSymbol are about it |
| Expression.SubstituteOne | components/JSXGraphBoard.tsx:197-201 | defines one iteration of the constants loop under the given word rule; SubstituteKeepsAbsent and SubstituteRemovesSymbol are about it |
| Expression.NonWordEdgesNeedWordNeighbours | components/JSXGraphBoard.tsx:199 | under `\b`, a name starting or ending with a non-word character only matches next to a word character |
| Expression.RulesAgreeOnWordNames | components/JSXGraphBoard.tsx:197-201 | for `e`, `pi` and `phi`, which start and end with word characters, `\b` and the standalone rule replace the same way |
| Expression.StandaloneRemovesSymbol | components/JSXGraphBoard.tsx:197-201 | under the standalone rule no occurrence of a one-character symbol name survives |
| Expression.SubstituteRemovesSymbol | components/JSXGraphBoard.tsx:197-201 | under the corrected word rule, the loop's pass for π (or φ) leaves no π (or φ) |
| Expression.SymbolPassesClear | components/JSXGraphBoard.tsx:192-201 | under the corrected word rule, the passes for π, phi and φ, in table order, leave neither symbol |
| Expression.SymbolEntries | components/JSXGraphBoard.tsx:189-195 | the table's last three entries are π, phi and φ, and no value contains either symbol |
| Expression.SubstitutedHasNoSymbols | components/JSXGraphBoard.tsx:189-201 | under the corrected word rule, the constants loop leaves no π and no φ |
| Expression.NormalizedHasNoSymbolConstants | components/JSXGraphBoard.tsx:183-210 | under the corrected word rule, no π and no φ reach the function-graph primitive |
| Expression.LastThreePasses | components/JSXGraphBoard.tsx:197-201 | for a five-entry table the loop ends with the passes for its last three entries |
| Expression.SubstituteKeepsAbsent | components/JSXGraphBoard.tsx:200 | under either word rule, a pass whose value lacks a character does not bring it in |
| Expression.FinalStepsKeepAbsent | components/JSXGraphBoard.tsx:207-210 | the superscript and multiplication steps bring in no character other than `^`, digits and `*` |
| Expression.ConstantsAreWordOrSymbol | components/JSXGraphBoard.tsx:189-195 | every name of the table begins and ends with word characters or is π or φ, and no value holds π or φ |
| Expression.NumeralEntry | components/JSXGraphBoard.tsx:189-195 | an entry whose value is a numeral and whose name has word-character edges or is π or φ is one the two rules can only treat differently on π or φ |
| Expression.SubstituteRulesAgree | components/JSXGraphBoard.tsx:197-201 | on a text without π and φ, substitution with `\b` and with the corrected rule agree, and the result still lacks both symbols |
| Expression.TrimAndLowerKeepAbsent | components/JSXGraphBoard.tsx:183-187 | trimming and lower-casing bring in no character except lower-case letters |
| Expression.NormalizeRulesAgree | components/JSXGraphBoard.tsx:183-210 | on an expression without π and φ the normaliser as written and as corrected give the same result |
| Expression.EInsideWordsIsKept | components/JSXGraphBoard.tsx:197-201 | under either word rule, the `e` of `exp` and of `2e` is not replaced |
| Expression.PiSymbolIsKeptBetweenOperators | components/JSXGraphBoard.tsx:192-201 | as written, `sin(π*x)` keeps its π |
| Expression.PiSymbolIsReplacedWhenStandalone | components/JSXGraphBoard.tsx:192-201 | under the corrected word rule, the π pass replaces the π of `sin(π*x)` |
| Expression.SuperscriptValue | components/JSXGraphBoard.tsx:203-206 | a superscript digit stands for an ASCII digit |
| Expression.SuperscriptTable | components/JSXGraphBoard.tsx:203-206 | each of ⁰ to ⁹ stands for the digit of the same value |
| Expression.ExpandSuperscripts | components/JSXGraphBoard.tsx:207 | no superscript digit remains, and the only new characters are `^` and digits |
| Expression.ExpandSuperscriptsAppend | components/JSXGraphBoard.tsx:207 | the rewrite works character by character |
| Expression.ExpandSuperscriptsIdentity | components/JSXGraphBoard.tsx:207 | a text with no superscript digit is left unchanged |
| Expression.SuperscriptBecomesPower | components/JSXGraphBoard.tsx:203-207 | each superscript digit becomes `^` followed by its digit, in place |
| Expression.MulPass | components/JSXGraphBoard.tsx:209-210 | a pass keeps the first character, and the only new character it adds is `*` |
| Expression.MulPassRemovesPairs | components/JSXGraphBoard.tsx:209-210 | after a pass, none of its left characters is directly followed by `[a-zA-Z(]` |
| Expression.MulPassKeepsNoImplicit | components/JSXGraphBoard.tsx:209-210 | the second pass brings back no pair that the first pass removed |
| Expression.MulPassIdentity | components/JSXGraphBoard.tsx:209-210 | a pass changes nothing when there is no pair to separate |
| Expression.ImplicitMultiplicationComplete | components/JSXGraphBoard.tsx:209-210 | after both passes, no digit and no `)` is directly followed by `[a-zA-Z(]` |
| Expression.ImplicitMultiplicationIdempotent | components/JSXGraphBoard.tsx:209-210 | running both passes again changes nothing |
| Expression.MulPassInsertsStars | components/JSXGraphBoard.tsx:209 | a pass only inserts `*` |
| Expression.ImplicitMultiplicationInsertsStars | components/JSXGraphBoard.tsx:209-210 | both passes together only insert `*`: deleting the inserted stars gives the input back |
| Expression.ImplicitMultiplication | components/JSXGraphBoard.tsx:209-210 | defines the two passes in their order; its properties are ImplicitMultiplicationComplete, ImplicitMultiplicationIdempotent and ImplicitMultiplicationInsertsStars |
| Expression.SubstituteKeepsNoUpper | components/JSXGraphBoard.tsx:197-201 | substituting constants whose values have no capitals introduces no capital |
| Expression.ConstantValuesHaveNoUpper | components/JSXGraphBoard.tsx:189-195 | the constants' numerals contain no capital letter |
| Expression.FinalStepsKeepNoUpper | components/JSXGraphBoard.tsx:203-210 | the superscript and multiplication steps introduce no capital, and they leave no superscript digit |
| Expression.RewrittenHasNoUpperOrSuperscript | components/JSXGraphBoard.tsx:187-210 | the steps after the emptiness guard leave no capital and no superscript digit |
| Expression.NormalizedHasNoUpperOrSuperscript | components/JSXGraphBoard.tsx:183-210 | the text handed to the library has no ASCII capital and no superscript digit |
| Expression.NormalizedHasExplicitProducts | components/JSXGraphBoard.tsx:183-210 | the text handed to the library has every implicit product made explicit |
| Expression.NormalizeFixesCleanInput | components/JSXGraphBoard.tsx:183-210 | an expression already in the plotter's syntax passes through unchanged |
| Expression.SubstituteFixesClean | components/JSXGraphBoard.tsx:197-201 | without a whole-word occurrence of any constant, the substitution loop changes nothing |
| Expression.SubstituteConstants | components/JSXGraphBoard.tsx:197-201 | defines the loop's effect over the table in order, under the given word rule |
| Expression.Rewritten | components/JSXGraphBoard.tsx:187-210 | defines the steps after the emptiness guard, in order |
| Expression.Normalize | components/JSXGraphBoard.tsx:183-210 | defines the whole normaliser: None for a blank expression, else the rewritten text; its properties are the Normalized lemmas and NormalizeRulesAgree |
| Expression.AbsentNameNeverMatches | components/JSXGraphBoard.tsx:197-201 | under either word rule, a name whose first character does not occur is never matched |
| ExpressionExamples.TrimFixes | components/JSXGraphBoard.tsx:183 | a text with no whitespace at either end is its own trim |
| ExpressionExamples.LowerFixes | components/JSXGraphBoard.tsx:187 | a text with no capitals is its own lower case |
| ExpressionExamples.SubstituteFixes | components/JSXGraphBoard.tsx:189-201 | under either word rule, a text without e, p, π or φ is left alone by the constants loop |
| ExpressionExamples.NormalizeAfterTrimAndLower | components/JSXGraphBoard.tsx:183-187 | for trimmed lower-case input, normalising starts at the constants step |
| ExpressionExamples.NormalizeNoConstants | components/JSXGraphBoard.tsx:183-210 | for such input without constants, only the superscript and multiplication steps act |
| ExpressionExamples.FinalStepsFix | components/JSXGraphBoard.tsx:203-210 | the last three steps leave a text unchanged when it has no superscript digit and no implicit product |
| ExpressionExamples.NormalizeTwoX | components/JSXGraphBoard.tsx:183-210 | under either word rule, `2x` becomes `2*x` |
| ExpressionExamples.NormalizeSquare | components/JSXGraphBoard.tsx:183-210 | under either word rule, `x²` becomes `x^2` |
| ExpressionExamples.NormalizeThreeParen | components/JSXGraphBoard.tsx:183-210 | under either word rule, `3(x+1)` becomes `3*(x+1)` |
| ExpressionExamples.SinPiReplaced | components/JSXGraphBoard.tsx:199-200 | under either word rule, the one whole-word `pi` of `sin(pi*x)` is replaced and the text around it is kept |
| ExpressionExamples.NormalizeSinPi | components/JSXGraphBoard.tsx:183-210 | under either word rule, `sin(pi*x)` becomes `sin((3.141592653589793)*x)` |
| ExpressionExamples.SinPiSymbolHasNoRegexMatch | components/JSXGraphBoard.tsx:197-201 | with `\b`, no name of the constants table matches anywhere in `sin(π*x)` |
| ExpressionExamples.SinPiSymbolIsClean | components/JSXGraphBoard.tsx:187-210 | `sin(π*x)` has no capital, no superscript digit and no implicit product |
| ExpressionExamples.NormalizeSinPiSymbolAsWritten | components/JSXGraphBoard.tsx:183-210 | as written, plotFunction hands `sin(π*x)` to the library unchanged, π included |
| Board.Resolve | components/JSXGraphBoard.tsx:168 | the filter keeps at most as many ids as it was given |
| Board.ResolveKeepsAll | components/JSXGraphBoard.tsx:150-152 | nothing is filtered out exactly when every id exists, and then the ids come back in order |
| Board.ResolveMembers | components/JSXGraphBoard.tsx:151 | exactly the given ids that exist survive the filter |
| Board.Construct | components/JSXGraphBoard.tsx:150-169 | defines the guards drawLine and drawCircle share: exactly the arity's number of ids, all of which resolve; DrawLine and DrawCircle are about it |
| Board.DrawLine | components/JSXGraphBoard.tsx:166-180 | a line exists exactly when two ids are given and both exist; it is tagged with those two points |
| Board.DrawCircle | components/JSXGraphBoard.tsx:149-165 | a circle exists exactly when three ids are given and all exist; it is tagged with those three points |
| Board.EmptyRegistryChangesNothing | components/JSXGraphBoard.tsx:149-227 | without a registry, neither drawLine nor drawCircle builds a shape and removeObject removes nothing |
| Board.Dedup | components/JSXGraphBoard.tsx:246 | no duplicates, the same members, and never longer |
| Board.Collected | components/JSXGraphBoard.tsx:227-242 | defines the objects collected before deduplication; RemovalSetContents states what they are |
| Board.RemovalSet | components/JSXGraphBoard.tsx:225-250 | defines the objects handed to the library; RemovalSetContents states what they are |
| Board.RemovalSetContents | components/JSXGraphBoard.tsx:225-250 | no duplicates and nothing for an empty id; otherwise the object itself if it exists, plus the given points that exist or, when none are given, its construction points |
| Board.LineRemovalTakesItsPoints | components/JSXGraphBoard.tsx:171-177 | deleting a drawn line by its history entry removes the line and its two points |
| Board.RemoveObject | components/JSXGraphBoard.tsx:225-250 | the push loop, the fallback and the deduplication compute the removal set |
| Board.ResolvePoints | components/JSXGraphBoard.tsx:234-240 | the forEach loop pushes exactly the given ids that exist, in order |
| Board.SubstituteAll | components/JSXGraphBoard.tsx:197-201 | the loop over the constants table applies one whole-word replacement per entry, in table order, under the given word rule |
| Board.Rewrite | components/JSXGraphBoard.tsx:183-210 | the step-by-step reassignments compute the normaliser under the given word rule: None exactly for a blank expression |
| Board.RewriteTrimmed | components/JSXGraphBoard.tsx:187-210 | the steps after the emptiness guard, in their order |
| Board.PlotFunction | components/JSXGraphBoard.tsx:181-224 | nothing, and no alert, without a library instance or for a blank expression; otherwise the library's answer on the normalised text, and on a refusal an alert that names the typed text and its normalised form |
| App.RelabelItem | App.tsx:44-66 | relabelling changes only the name, and it keeps entries without data |
| App.RelabelItemComposes | App.tsx:42-69 | relabelling twice is the same as relabelling once into the last language |
| App.Relabel | App.tsx:42-69 | the history keeps its length and order, and only names change |
| App.RelabelComposes | App.tsx:42-69 | switching language twice leaves only the last language's labels |
| App.LabelledAppend | App.tsx:82 | appending an entry labelled in the current language keeps the history labelled |
| App.PointEntryLabelled | App.tsx:79-82 | a new point's label is the one the relabel effect would give it |
| App.ShapeEntryLabelled | App.tsx:94-96 | a new line's or circle's label is the one the relabel effect would give it |
| App.FunctionEntryLabelled | App.tsx:189-190 | a new function's label is the one the relabel effect would give it |
| App.RelabelledAreLabelled | App.tsx:42-69 | after relabelling, every entry is labelled in that language |
| App.PointLabel | App.tsx:80 | defines a point's label from its two `toFixed(2)` coordinates; PointEntryLabelled is about it |
| App.PointEntry | App.tsx:80-81 | defines the entry a new point gets: its id, the point kind, the coordinate label, its coordinates and the colour; PointEntryLabelled is about it |
| App.ShapeEntry | App.tsx:94-113 | defines the entry a new line or circle gets, with its construction point ids; ShapeEntryLabelled is about it |
| App.FunctionEntry | App.tsx:189-190 | defines the entry a new function graph gets, with the text as typed; FunctionEntryLabelled is about it |
| App.Find | App.tsx:199 | an entry is found exactly when one has the id, and it is the first such entry |
| App.FirstIndex | App.tsx:199 | the position of the first entry with the id, or the length when there is none |
| App.Without | App.tsx:201 | exactly the entries with another id remain |
| App.WithoutDistributes | App.tsx:201 | filtering works entry by entry, so the kept entries stay in their order |
| App.WithoutAbsent | App.tsx:201 | a history without the id is unchanged |
| App.WithoutIdempotent | App.tsx:201 | deleting twice removes nothing more |
| App.WithoutKeepsLabels | App.tsx:201 | deleting keeps the remaining labels current |
| App.IsBlank | App.tsx:186 | the controller's trim guard rejects exactly the input the board would not plot, under either word rule |
| App.App.constructor | App.tsx:10-23 | all modes off, empty buffers, history and input, both scales 1, the default colour, Portuguese |
| App.App.Valid | App.tsx:123-151 | defines the mode invariant: at most one mode on, each buffer below its arity, one coordinate per id, and empty when its mode is off |
| App.App.LabelsCurrent | App.tsx:42-69 | defines the history invariant: every label is the one the relabel effect gives in the current language; the handlers' contracts keep it |
| App.App.MountBoard | App.tsx:25 | the board handle is set and nothing else changes |
| App.App.CreatePointClick | App.tsx:123-131 | point mode on; line and circle modes off with both buffers emptied; nothing else changes |
| App.App.DrawLineClick | App.tsx:133-141 | line mode on with an empty buffer; the other modes off; the circle buffer emptied |
| App.App.DrawCircleClick | App.tsx:143-151 | circle mode on with an empty buffer; the other modes off; the line buffer emptied |
| App.App.PointCreated | App.tsx:71-87 | circle mode first, then line mode, then point mode. Buffering below the arity; at the arity, the commit. In point mode, one point entry with the clicked coordinates and colour, then point mode off. With no mode on, nothing changes. Both invariants are kept |
| App.App.CirclePoint | App.tsx:89-104 | the third point commits: a circle entry only if the board drew one; circle mode off and the buffer emptied either way |
| App.App.LinePoint | App.tsx:106-121 | the second point commits: a line entry only if the board drew one; line mode off and the buffer emptied either way |
| App.App.Record | App.tsx:82 | one entry appended, and the labels stay current |
| App.App.AddFunction | App.tsx:188-193 | a function entry for the typed text is appended, and the input is emptied |
| App.App.ClearBoard | App.tsx:153-166 | with the board attached: modes off, buffers, input and history emptied; scales, colour and language kept. Otherwise nothing changes |
| App.App.ResetModes | App.tsx:156-162 | every mode off and both buffers emptied, nothing else changed |
| App.App.SetXScale | App.tsx:168-170 | only the x scale changes |
| App.App.SetYScale | App.tsx:172-174 | only the y scale changes |
| App.App.ResetScale | App.tsx:176-179 | both scales back to 1, nothing else changed |
| App.App.PolynomialChange | App.tsx:181-183 | only the input text changes |
| App.App.ColorChange | App.tsx:217-219 | only the selected colour changes |
| App.App.PlotPolynomial | App.tsx:185-195 | a function entry is appended and the input emptied exactly when the board is attached and holds its library instance, the input is not blank and the library creates the graph; otherwise nothing changes, and the alert is returned exactly on a refusal |
| App.App.DeleteHistoryItem | App.tsx:197-203 | with the board attached, the board removes the removal set for the first entry's point ids, and every entry with the id leaves the history, the others in order. Otherwise nothing happens |
| App.App.SetLanguage | App.tsx:42-69 | the language changes and every entry is relabelled into it, so the labels stay current |
| App.App.PromptText | App.tsx:221-232 | defines getPromptText: circle mode first, then line mode, then point mode, else the default; PromptFollowsMode is about it |
| App.PromptFollowsMode | App.tsx:221-232 | since at most one mode is on, the prompt is that of the active mode (circle, line or point, each with its count), or the default one when none is |
| App.EnglishLinePromptRange | App.tsx:221-232 | in English line mode the prompt asks for point n of 2, with n being 1 or 2 |
| App.EnglishCirclePromptRange | App.tsx:221-232 | in English circle mode the prompt asks for point n of 3, with n from 1 to 3 |

## Left out

- JSXGraph itself is left out. The model does not include the library's board creation, `clearBoard`'s reinitialisation, the drawing, the hit-testing or `removeObject` on the library side. A created shape's id is a parameter, and a function graph's creation is a function that may refuse.
- The library identifies objects by reference; the model identifies them by id. `removeObject` dedups objects, and the model dedups their ids, which is the same thing because each object sits in the registry under its own id only.
- Construction points are modelled as the ids of the point objects.
- Highlighting and unhighlighting (`highlightObject` and `unhighlightObject`) are left out: they only set display attributes.
- Bounding-box and scale arithmetic are left out, and so is `parseFloat` for the sliders. The scale handlers take the parsed number.
- React effect scheduling, refs and batching are not modelled. The commit and relabel effects run synchronously at the end of the handler that triggers them.
- `alert` and `console.error` are not reproduced: the alert text is returned.
- Format.ToFixed2: works on exact reals instead of doubles, and does not produce the exponent form JavaScript uses for magnitudes of 10^21 and above.
- The constants' numerals are fixed strings, the JavaScript texts of `Math.E`, `Math.PI` and the golden ratio. Their numeric values are not modelled.
- Expression.ToLowerAscii: lowers only A-Z, while `toLowerCase` lowers all of Unicode. For example, Π and Φ become π and φ in JavaScript but stay as they are here.
- Strings are sequences of Unicode code points, not UTF-16 units. This makes no difference for the characters the normaliser inspects.
- The history's `type` field is the closed kind type. The relabel effect's fallthrough for an unknown `type` string is therefore not modelled.
- The key type is closed and both tables are complete. The English and key-name fallbacks of `translated` are stated for any table contents (I18n.Lookup) but never fire for the real tables.
- The presentational components are not part of this model: the sidebar, the panels and the selectors.
- App.App.ResetScale, App.App.ColorChange and the other handlers that leave history and language unchanged do not restate LabelsCurrent. It follows from their State ensures, because LabelsCurrent reads only those two fields.

## Findings

| source | as written | input that shows it | evidently intended | confidence | as-written member | corrected member |
|---|---|---|---|---|---|---|
| components/JSXGraphBoard.tsx:192-201 | `π` and `φ` are substituted with the pattern `\bπ\b` (and `\bφ\b`). Neither is a word character, so the pattern only matches a symbol that sits between two word characters. | `sin(π*x)` keeps its π through the loop, so the library receives a symbol it does not know | π and φ are replaced wherever they stand alone, as the comment about standalone constants says; `pi` and `phi` behave as before | not executed | Expression.PiSymbolIsKeptBetweenOperators | Expression.NormalizedHasNoSymbolConstants |

The normaliser with `RegexBoundary` is the code as written:
- `Expression.PiSymbolIsKeptBetweenOperators`: the π pass keeps the π of
  `sin(π*x)`.
- `ExpressionExamples.NormalizeSinPiSymbolAsWritten`: the whole normaliser
  hands `sin(π*x)` to the library unchanged.

The normaliser with `Standalone` is the corrected one:
- `Expression.RulesAgreeOnWordNames`: it agrees with `\b` on `e`, `pi` and
  `phi`.
- `Expression.StandaloneRemovesSymbol`: it removes every lone one-character
  symbol.
- `Expression.NormalizedHasNoSymbolConstants`: no π and no φ reach the
  library.
- `Expression.NormalizeRulesAgree`: on expressions without π and φ it gives
  what the code as written gives.
