# StyleCop code model: element declaration attributes and the conditional preprocessor expression parser

This project models two parts of StyleCop's C# code model in Dafny and proves
properties of them.

**Element declaration attributes** (`Element.cs`). These are the cached properties
of an `Element`:

- the local access level and the modifier dictionary collected by
  `GatherDeclarationModifiers`;
- the actual access level, merged down the parent chain by `ComputeActualAccess`;
- `Unsafe`, `FullyQualifiedName`, `Attributes`, `Header`, `LineNumber` and `Name`;
- the first and last declaration tokens.

The code unit tree of a document is an arena: the units are stored in document
(pre-)order, and each one holds the index of its parent and of its last
descendant. The property values are specification functions over that tree
(`ElementProperties`). The loops of the source are methods proved against those
functions (`Modifiers`, `DeclarationSpan`). The lazily filled `CodeUnitProperty`
caches are a class, `ElementStore`, with one `Option` per cache. Its invariant
says that every filled cache holds its property's value. `Reset` clears the
caches.

For effective accessibility (`Access`), the reference definition is the
accessibility domain of section 10.5.2 of ECMA-334, 4th edition. The merge rule
is proved to intersect domains, so an element is never more accessible than its
local level or its parent.

**Conditional preprocessor expressions** (`CodeParser.Preprocessor.cs`). This is
the recursive-descent parser over the symbols of an `#if`/`#elif` body. It reads
literals, `!`, parentheses, `==`/`!=` and `&&`/`||`, following the pp-expression
grammar of section 9.5.2 of ECMA-334, 4th edition.

- `PreprocessorSpec` defines each builder as a function of the symbol sequence
  and the cursor. A function yields the exception it raises, or the expression
  it returns, the new cursor, and the units it appends to the proxy it was given.
- `PreprocessorParser` is the parser as written: a class `Parser` with a cursor
  `pos` over the symbols, and `Proxy` objects whose `children` lists the
  builders append to.
- Every builder method is proved to leave exactly what its function predicts:
  the same error, or the same expression, cursor and proxy contents.
- `PreprocessorProperties` proves the grammar-level facts about the functions.
- `PreprocessorBody` covers the directive body: the trimming of
  `GetConditionalPreprocessorBodyExpression` and the hand-over to the parser.

Exceptions are `Result` errors:

- `SyntaxException` carries its line.
- The `NullReferenceException` of reading the line of a missing symbol is
  `NullSymbol`. This happens in `GetConditionalPreprocessorParenthesizedExpression`
  at the end of input.
- The `ArgumentOutOfRangeException` of a body start outside the directive text
  is `OutOfRange`.
- The `ArgumentException` of `Dictionary.Add` on a repeated modifier is
  `DuplicateModifier`.

Some things are modelled as the source writes them:

- The extension loop of `GetNextConditionalPreprocessorExpression` (lines 187–204)
  always extends the original primary expression and returns the primary.
- `Reset` (lines 573–587) leaves the actual access level cache filled.

## Model

| member | source | states |
|---|---|---|
| Access.ActualAccess | Project.AutoFix/Src/AddIns/CSharp/CodeModel/CodeUnits/Element.cs:644-727 | With no parent element the actual level is the local level. Otherwise its accessibility domain is the intersection of the local level's domain and the parent's. It is never more permissive than the local level. |
| Access.ActualAccessRules | Project.AutoFix/Src/AddIns/CSharp/CodeModel/CodeUnits/Element.cs:644-727 | The merge rules case by case. A Private element stays Private. A Public parent passes the level through. A ProtectedInternal parent turns only Public into ProtectedInternal. A Protected parent turns Public and ProtectedInternal into Protected, and Internal into ProtectedAndInternal. An Internal parent turns Public and ProtectedInternal into Internal, and Protected into ProtectedAndInternal. A ProtectedAndInternal parent turns every non-private level into ProtectedAndInternal. A Private parent gives Private. |
| Access.DomainInjective | Project.AutoFix/Src/AddIns/CSharp/CodeModel/CodeUnits/Element.cs:644-727 | Two access levels with the same accessibility domain are equal, so the domain intersection fixes the merged level. |
| Access.ChainAccessIsCommonDomain | Project.AutoFix/Src/AddIns/CSharp/CodeModel/CodeUnits/Element.cs:264-277 | Merging the local levels down a parent chain gives the level whose domain is the intersection of all their domains. |
| Modifiers.AddModifier | Project.AutoFix/Src/AddIns/CSharp/CodeModel/CodeUnits/Element.cs:754 | `Dictionary.Add` records the token under its type, and fails with DuplicateModifier at the token's line when that type is already recorded. |
| Modifiers.Step | Project.AutoFix/Src/AddIns/CSharp/CodeModel/CodeUnits/Element.cs:744-815 | One iteration of the scan. A conflicting access keyword raises SyntaxError at its line. An unrecognised token stops the scan. A non-access token leaves the access level and the last keyword as they were. An accepted access keyword becomes the last keyword seen. Any error is at this token's line. |
| Modifiers.FirstUnrecognized | Project.AutoFix/Src/AddIns/CSharp/CodeModel/CodeUnits/Element.cs:808-814 | The index of the first token that is neither an access keyword nor an allowed modifier. Every token before it is recognised. |
| Modifiers.ScanModifiersIsReference | Project.AutoFix/Src/AddIns/CSharp/CodeModel/CodeUnits/Element.cs:733-816 | The scan raises no error exactly when the access keywords among the consumed tokens form an accepted list and no token type repeats. It then yields that list's level and records every consumed token under its type. |
| Modifiers.ScanAccessLevels | Project.AutoFix/Src/AddIns/CSharp/CodeModel/CodeUnits/Element.cs:740-807 | With no access keyword the level is the element's default. `protected internal` written in either order gives ProtectedInternal. An access keyword list that is not accepted raises an error. |
| Modifiers.ScanConflictLine | Project.AutoFix/Src/AddIns/CSharp/CodeModel/CodeUnits/Element.cs:744-807 | The scan raises SyntaxError at a token's line when that token is `public` or `private` after any access keyword, `internal` after one other than `protected`, or `protected` after one other than `internal`. |
| Modifiers.ScanAppend | Project.AutoFix/Src/AddIns/CSharp/CodeModel/CodeUnits/Element.cs:742-815 | Scanning a + b is scanning b from the state the scan of a ends in. |
| Modifiers.GetOtherElementModifier | Project.AutoFix/Src/AddIns/CSharp/CodeModel/CodeUnits/Element.cs:610-633 | The scan goes on exactly when the token's text ordinally equals an allowed modifier. The token is recorded under its type then, or fails with DuplicateModifier if the type is already recorded. Otherwise nothing changes. |
| Modifiers.GatherDeclarationModifiers | Project.AutoFix/Src/AddIns/CSharp/CodeModel/CodeUnits/Element.cs:733-816 | The loop over the sibling tokens from the first declaration token ends in the state of the scan over those tokens from the default level. |
| Text.RemoveWhitespace | Project.AutoFix/Src/AddIns/CSharp/CodeModel/CodeUnits/Element.cs:234 | The result has no whitespace and is no longer than its input. A string without whitespace is returned unchanged. |
| Text.RemoveWhitespaceAppend | Project.AutoFix/Src/AddIns/CSharp/CodeModel/CodeUnits/Element.cs:234 | Removing whitespace distributes over concatenation. |
| ElementProperties.ParentElement | Project.AutoFix/Src/AddIns/CSharp/CodeModel/CodeUnits/Element.cs:519-532 | The parent of an element is its tree parent, and is an element earlier in the document. |
| ElementProperties.DeclaresAccessIsKeyword | Project.AutoFix/Src/AddIns/CSharp/CodeModel/CodeUnits/Element.cs:308-314 | When the scan succeeds, DeclaresAccessModifier holds exactly when an access keyword was scanned. Without one the local level is the element's default. |
| ElementProperties.AccessKeywordsIn | Project.AutoFix/Src/AddIns/CSharp/CodeModel/CodeUnits/Element.cs:744-807 | Every entry of the access keyword list is an access keyword. |
| ElementProperties.AccessKeywordsHas | Project.AutoFix/Src/AddIns/CSharp/CodeModel/CodeUnits/Element.cs:744-807 | An access keyword among the tokens makes the keyword list non-empty. |
| ElementProperties.ActualAccessOf | Project.AutoFix/Src/AddIns/CSharp/CodeModel/CodeUnits/Element.cs:264-277 | The ActualAccessLevel property is never more permissive than the element's own AccessModifierType. |
| ElementProperties.LocalChain | Project.AutoFix/Src/AddIns/CSharp/CodeModel/CodeUnits/Element.cs:644-665 | The local levels from the outermost element down end with the element's own level. |
| ElementProperties.ActualAccessIsChain | Project.AutoFix/Src/AddIns/CSharp/CodeModel/CodeUnits/Element.cs:644-727 | The actual level is the chain merge of the local levels from the outermost element in. |
| ElementProperties.ActualAccessDomain | Project.AutoFix/Src/AddIns/CSharp/CodeModel/CodeUnits/Element.cs:644-727 | An element is accessible to exactly the audiences that every element on its parent chain is locally accessible to. It is never more accessible than its parent. |
| ElementProperties.UnsafeIsInherited | Project.AutoFix/Src/AddIns/CSharp/CodeModel/CodeUnits/Element.cs:363-393 | An element is unsafe exactly when it or one of its ancestor elements records the `unsafe` modifier. |
| ElementProperties.QualifiedPrefix | Project.AutoFix/Src/AddIns/CSharp/CodeModel/CodeUnits/Element.cs:207-213 | The parent's part of the fully qualified name contains no whitespace. |
| ElementProperties.FullyQualifiedNameOf | Project.AutoFix/Src/AddIns/CSharp/CodeModel/CodeUnits/Element.cs:199-239 | The fully qualified name contains no whitespace. |
| ElementProperties.FullyQualifiedNameExtends | Project.AutoFix/Src/AddIns/CSharp/CodeModel/CodeUnits/Element.cs:205-234 | With no parent, a document parent or an empty parent name, the fully qualified name is the element's name without whitespace. Otherwise it is the parent's name, a dot and the element's name, without whitespace. |
| ElementProperties.AttributesFrom | Project.AutoFix/Src/AddIns/CSharp/CodeModel/CodeUnits/Element.cs:327-339 | The walk collects only attributes, in increasing document order, from the starting child on. |
| ElementProperties.AttributesFromAreLeading | Project.AutoFix/Src/AddIns/CSharp/CodeModel/CodeUnits/Element.cs:327-339 | From a child with no stopping child before it, the walk collects exactly the leading attribute children from that child on. |
| ElementProperties.AttributesAreLeading | Project.AutoFix/Src/AddIns/CSharp/CodeModel/CodeUnits/Element.cs:319-346 | The Attributes property lists, in document order, exactly the attribute children that come before the first child that is a token or not a lexical element. |
| ElementProperties.HeaderFrom | Project.AutoFix/Src/AddIns/CSharp/CodeModel/CodeUnits/Element.cs:461 | The header found is a header unit at or after the starting child. |
| ElementProperties.HeaderFromIsFirst | Project.AutoFix/Src/AddIns/CSharp/CodeModel/CodeUnits/Element.cs:461 | The header found is the first header child from the starting child on, and none is found only when there is no later header child. |
| ElementProperties.HeaderIsFirstHeaderChild | Project.AutoFix/Src/AddIns/CSharp/CodeModel/CodeUnits/Element.cs:453-466 | The Header property is the element's first header child. It is missing exactly when no child is a header. |
| ElementProperties.LineNumberSkipsAttributes | Project.AutoFix/Src/AddIns/CSharp/CodeModel/CodeUnits/Element.cs:167-190 | The line number is the line of the first token that is not inside an attribute. It is the unit's own line when every token is inside an attribute. |
| DeclarationSpan.FirstDeclFrom | Project.AutoFix/Src/AddIns/CSharp/CodeModel/CodeUnits/Element.cs:824-835 | The walk from a unit ends, if it finds anything, on a token of the element's subtree at or after that unit. |
| DeclarationSpan.SkipAttribute | Project.AutoFix/Src/AddIns/CSharp/CodeModel/CodeUnits/Element.cs:826-830 | Jumping over an attribute subtree skips only tokens inside attributes. |
| DeclarationSpan.SkipOther | Project.AutoFix/Src/AddIns/CSharp/CodeModel/CodeUnits/Element.cs:824-835 | Stepping over a unit that is neither an attribute nor a token skips no token. |
| DeclarationSpan.FirstDeclFromIsFirst | Project.AutoFix/Src/AddIns/CSharp/CodeModel/CodeUnits/Element.cs:822-838 | The walk from any point reached ends on the first later token outside attributes, or finds none when every later token is inside an attribute. |
| DeclarationSpan.FirstDeclTokenIsFirst | Project.AutoFix/Src/AddIns/CSharp/CodeModel/CodeUnits/Element.cs:822-838 | The first declaration token is the first token of the element's subtree that is not inside an attribute. There is none exactly when every token of the subtree is inside an attribute. |
| DeclarationSpan.FindFirstDeclarationToken | Project.AutoFix/Src/AddIns/CSharp/CodeModel/CodeUnits/Element.cs:822-838 | The loop returns the first declaration token. |
| DeclarationSpan.LastFrom | Project.AutoFix/Src/AddIns/CSharp/CodeModel/CodeUnits/Element.cs:848-878 | The walk of FindLastDeclarationToken ends on a token. |
| DeclarationSpan.Lift | Project.AutoFix/Src/AddIns/CSharp/CodeModel/CodeUnits/Element.cs:880-886 | The climb ends at or above its start, on a unit whose parent is not a token. |
| DeclarationSpan.LiftThroughTokens | Project.AutoFix/Src/AddIns/CSharp/CodeModel/CodeUnits/Element.cs:880-886 | Climbing from a token through token parents ends on a token. |
| DeclarationSpan.LiftInside | Project.AutoFix/Src/AddIns/CSharp/CodeModel/CodeUnits/Element.cs:880-886 | A token inside an element climbs to a token still inside that element. |
| DeclarationSpan.LastDeclTokenBounds | Project.AutoFix/Src/AddIns/CSharp/CodeModel/CodeUnits/Element.cs:844-889 | An element has a last declaration token exactly when it has a first one. It is a token of the element's subtree whose parent is not a token. |
| DeclarationSpan.FlatLastBeforeEnd | Project.AutoFix/Src/AddIns/CSharp/CodeModel/CodeUnits/Element.cs:848-878 | The flat walk ends on a token of the element with no `{`, `;` or `=` from the first token up to it. |
| DeclarationSpan.FlatLastIsLast | Project.AutoFix/Src/AddIns/CSharp/CodeModel/CodeUnits/Element.cs:848-878 | Every token after the end of that walk lies at or after a `{`, `;` or `=`. |
| DeclarationSpan.ResumeIsFlat | Project.AutoFix/Src/AddIns/CSharp/CodeModel/CodeUnits/Element.cs:848-878 | Without attributes and open brackets before some terminator (or before the end of the element), the walk of FindLastDeclarationToken is the plain walk up to the first `{`, `;` or `=`. |
| DeclarationSpan.FlatWalkEndsBeforeTerminator | Project.AutoFix/Src/AddIns/CSharp/CodeModel/CodeUnits/Element.cs:848-878 | Without attributes and open brackets from the first token up to some terminator, and from a first token that is not a terminator, the walk ends on the last token before the first `{`, `;` or `=`. |
| DeclarationSpan.LastDeclTokenFlat | Project.AutoFix/Src/AddIns/CSharp/CodeModel/CodeUnits/Element.cs:844-889 | Without attributes and open brackets from the first token up to some terminator, the last declaration token is lifted from the last token before the first `{`, `;` or `=`. It is lifted from the first token itself when that token is a terminator. |
| DeclarationSpan.Landing | Project.AutoFix/Src/AddIns/CSharp/CodeModel/CodeUnits/Element.cs:866-871 | At an open bracket the walk lands on its matching bracket, later in the element; elsewhere on the unit itself. |
| DeclarationSpan.LandingOr | Project.AutoFix/Src/AddIns/CSharp/CodeModel/CodeUnits/Element.cs:873-876 | The token recorded after a unit is a token. |
| DeclarationSpan.Examined | Project.AutoFix/Src/AddIns/CSharp/CodeModel/CodeUnits/Element.cs:848-878 | The units the walk examines are units of the element from the start on, none of them an attribute. |
| DeclarationSpan.FirstEnd | Project.AutoFix/Src/AddIns/CSharp/CodeModel/CodeUnits/Element.cs:858-863 | The position of the first `{`, `;` or `=` among the examined units: none before it, and one at it unless it is the end. |
| DeclarationSpan.Landings | Project.AutoFix/Src/AddIns/CSharp/CodeModel/CodeUnits/Element.cs:866-871 | The landings of a sequence of examined units, one per unit. |
| DeclarationSpan.ExaminedInOrder | Project.AutoFix/Src/AddIns/CSharp/CodeModel/CodeUnits/Element.cs:848-878 | Each examined unit lies after the landing of the one before: the walk moves forward and passes over a bracket pair to its matching bracket. |
| DeclarationSpan.ExaminedSkipsOnly | Project.AutoFix/Src/AddIns/CSharp/CodeModel/CodeUnits/Element.cs:850-871 | A unit of the element that the walk does not examine lies inside an attribute or after an open bracket up to its matching bracket. |
| DeclarationSpan.ConsLanding | Project.AutoFix/Src/AddIns/CSharp/CodeModel/CodeUnits/Element.cs:855-877 | Examining one more unit that is not a terminator makes its landing the fallback token when it is a token. |
| DeclarationSpan.LastFromIsLastLanding | Project.AutoFix/Src/AddIns/CSharp/CodeModel/CodeUnits/Element.cs:848-878 | On every tree, the walk ends on the last landing that is a token before the first examined `{`, `;` or `=`, or on its starting token when there is none. |
| DeclarationSpan.LastTokenLandingStep | Project.AutoFix/Src/AddIns/CSharp/CodeModel/CodeUnits/Element.cs:855-877 | The induction step of that statement at a unit that is neither an attribute nor a terminator. |
| DeclarationSpan.LastFromLands | Project.AutoFix/Src/AddIns/CSharp/CodeModel/CodeUnits/Element.cs:855-877 | At a unit that is neither an attribute nor a terminator, the walk records the landing if it is a token and goes on after it. |
| DeclarationSpan.ExaminedLands | Project.AutoFix/Src/AddIns/CSharp/CodeModel/CodeUnits/Element.cs:855-877 | The units examined from such a unit are the unit and then those after its landing. |
| DeclarationSpan.LastDeclTokenWalk | Project.AutoFix/Src/AddIns/CSharp/CodeModel/CodeUnits/Element.cs:844-889 | For any element that has a first declaration token f, the last declaration token is lifted from the last landing that is a token before the first examined terminator, or from f when there is none. |
| DeclarationSpan.FindLastDeclarationToken | Project.AutoFix/Src/AddIns/CSharp/CodeModel/CodeUnits/Element.cs:844-889 | The walk followed by the climb returns the last declaration token, which LastDeclTokenWalk characterises on every well-formed tree. |
| DeclarationSpan.WalkDeclaration | Project.AutoFix/Src/AddIns/CSharp/CodeModel/CodeUnits/Element.cs:848-878 | The loop skips attributes, jumps from an open bracket to its match, stops at `{`, `;` or `=`, and ends on the token the walk specification gives. |
| DeclarationSpan.ResumeInside | Project.AutoFix/Src/AddIns/CSharp/CodeModel/CodeUnits/Element.cs:848-878 | The walk resumed inside the element ends on the token it started with, or on a token of the element from the resumption point on. |
| DeclarationSpan.LastFromSkipsAttribute | Project.AutoFix/Src/AddIns/CSharp/CodeModel/CodeUnits/Element.cs:850-854 | At an attribute the walk resumes after the attribute's last descendant. |
| DeclarationSpan.LastFromStep | Project.AutoFix/Src/AddIns/CSharp/CodeModel/CodeUnits/Element.cs:855-877 | At a unit that is neither an attribute nor a terminator, the walk moves to its matching bracket if it is an open bracket, records it if it is a token, and resumes after it. |
| DeclarationSpan.ClimbTokenParents | Project.AutoFix/Src/AddIns/CSharp/CodeModel/CodeUnits/Element.cs:880-886 | The loop climbs through token parents to the lifted token. |
| ElementCache.Fill | Project.AutoFix/Src/AddIns/CSharp/CodeModel/CodeUnits/Element.cs:45-95 | Storing caches that agree with the properties, over caches they keep, preserves the cache invariant and keeps every filled cache. |
| ElementCache.FillUnsafe | Project.AutoFix/Src/AddIns/CSharp/CodeModel/CodeUnits/Element.cs:363-393 | The unsafe flag may be stored when it is true only for unsafe elements and right whenever no scan on the parent chain fails. |
| ElementCache.ElementStore.constructor | Project.AutoFix/Src/AddIns/CSharp/CodeModel/CodeUnits/Element.cs:45-95 | Every cache field starts out not initialised, over a well-formed tree. |
| ElementCache.ElementStore.Reset | Project.AutoFix/Src/AddIns/CSharp/CodeModel/CodeUnits/Element.cs:573-587 | Every cache of the element is cleared except the actual access level, and the invariant holds. |
| ElementCache.ElementStore.Name | Project.AutoFix/Src/AddIns/CSharp/CodeModel/CodeUnits/Element.cs:398-412 | Returns the element's name and fills the name cache, keeping the invariant. |
| ElementCache.ElementStore.FirstDeclarationToken | Project.AutoFix/Src/AddIns/CSharp/CodeModel/CodeUnits/Element.cs:417-430 | Returns the first declaration token and fills its cache. |
| ElementCache.ElementStore.LastDeclarationToken | Project.AutoFix/Src/AddIns/CSharp/CodeModel/CodeUnits/Element.cs:435-448 | Returns the last declaration token. A first call fills it and the first token's cache; a later call changes nothing. |
| ElementCache.ElementStore.FillModifierCaches | Project.AutoFix/Src/AddIns/CSharp/CodeModel/CodeUnits/Element.cs:733-816 | Runs the scan and stores its modifiers and access level, also when it fails. Returns the scan's error. |
| ElementCache.ElementStore.AccessModifier | Project.AutoFix/Src/AddIns/CSharp/CodeModel/CodeUnits/Element.cs:244-256 | Returns the local access level. The scan's error is reported only by the call that runs the scan. The caches change only on the first call. |
| ElementCache.ElementStore.ContainsModifier | Project.AutoFix/Src/AddIns/CSharp/CodeModel/CodeUnits/Element.cs:543-564 | True exactly when one of the queried types is recorded. The scan's error is reported only by the call that runs it. |
| ElementCache.ElementStore.DeclaresAccessModifier | Project.AutoFix/Src/AddIns/CSharp/CodeModel/CodeUnits/Element.cs:308-314 | True exactly when an access type is recorded. |
| ElementCache.ElementStore.ActualAccessLevel | Project.AutoFix/Src/AddIns/CSharp/CodeModel/CodeUnits/Element.cs:264-277 | A success returns ActualAccessOf and caches it. It succeeds whenever no scan on the parent chain fails. Every cache of an element that is not the element or one of its ancestors is unchanged, and every filled cache stays filled. |
| ElementCache.ElementStore.Unsafe | Project.AutoFix/Src/AddIns/CSharp/CodeModel/CodeUnits/Element.cs:363-393 | True only for unsafe elements, and exact when no scan on the chain fails. The unsafe cache is left filled. Every cache of an element that is not the element or one of its ancestors is unchanged. |
| ElementCache.ElementStore.FullyQualifiedName | Project.AutoFix/Src/AddIns/CSharp/CodeModel/CodeUnits/Element.cs:199-239 | Returns and caches the fully qualified name. Every cache of an element that is not the element or one of its ancestors is unchanged, and every filled cache stays filled. |
| ElementCache.ElementStore.Attributes | Project.AutoFix/Src/AddIns/CSharp/CodeModel/CodeUnits/Element.cs:319-346 | Returns and caches the attribute list. |
| ElementCache.ElementStore.Header | Project.AutoFix/Src/AddIns/CSharp/CodeModel/CodeUnits/Element.cs:453-466 | Returns and caches the header. |
| ElementCache.ElementStore.LineNumber | Project.AutoFix/Src/AddIns/CSharp/CodeModel/CodeUnits/Element.cs:167-190 | Returns the line number. A first call fills it and the first token's cache. |
| ElementCache.CollectAttributes | Project.AutoFix/Src/AddIns/CSharp/CodeModel/CodeUnits/Element.cs:327-339 | The loop over the children returns the Attributes property. |
| ElementCache.AnyRecorded | Project.AutoFix/Src/AddIns/CSharp/CodeModel/CodeUnits/Element.cs:554-563 | True exactly when one of the types is a recorded key. |
| ElementCache.AccessTypesListed | Project.AutoFix/Src/AddIns/CSharp/CodeModel/CodeUnits/Element.cs:308-314 | The query for public, internal, protected and private finds one exactly when an access type is recorded. |
| PreprocessorSymbols.Binding | Project.AutoFix/Src/AddIns/CSharp/CodeModel/CodeParser.Preprocessor.cs:125 | Only the empty precedence binds at level 0. |
| PreprocessorSymbols.OperatorPrecedence | Project.AutoFix/Src/AddIns/CSharp/CodeModel/CodeParser.Preprocessor.cs:479 | Every pp-expression operator has a precedence above the empty one. |
| PreprocessorSymbols.PrecedenceOrder | Project.AutoFix/Src/AddIns/CSharp/CodeModel/CodeParser.Preprocessor.cs:479 | Unary binds tighter than equality, equality tighter than `&&`, and `&&` tighter than `\|\|`. |
| PreprocessorSymbols.TriviaNode | Project.AutoFix/Src/AddIns/CSharp/CodeModel/CodeParser.Preprocessor.cs:305-329 | The node for a trivia symbol is a trivia unit with the symbol's text and line. |
| PreprocessorSpec.SkipTrivia | Project.AutoFix/Src/AddIns/CSharp/CodeModel/CodeParser.Preprocessor.cs:298-337 | The skip passes only trivia symbols and stops at the first other symbol or at the end of input. |
| PreprocessorSpec.TriviaNodes | Project.AutoFix/Src/AddIns/CSharp/CodeModel/CodeParser.Preprocessor.cs:298-337 | One node per skipped symbol, in source order. |
| PreprocessorSpec.Lead | Project.AutoFix/Src/AddIns/CSharp/CodeModel/CodeParser.Preprocessor.cs:298-337 | The skip appends one node per symbol it passes. |
| PreprocessorSpec.NextExpression | Project.AutoFix/Src/AddIns/CSharp/CodeModel/CodeParser.Preprocessor.cs:139-220 | A read never moves the cursor back. An expression read consumes at least one symbol and is an expression with children. |
| PreprocessorSpec.ExtendedPrimary | Project.AutoFix/Src/AddIns/CSharp/CodeModel/CodeParser.Preprocessor.cs:153-219 | From a symbol, a read that succeeds returns an expression with children and consumes that symbol. |
| PreprocessorSpec.PrimaryExpression | Project.AutoFix/Src/AddIns/CSharp/CodeModel/CodeParser.Preprocessor.cs:153-181 | Every primary builder that succeeds consumes a symbol and returns an expression with children. |
| PreprocessorSpec.ConstantExpression | Project.AutoFix/Src/AddIns/CSharp/CodeModel/CodeParser.Preprocessor.cs:344-366 | The constant builder consumes the word and returns an expression with children. |
| PreprocessorSpec.LiteralExpression | Project.AutoFix/Src/AddIns/CSharp/CodeModel/CodeParser.Preprocessor.cs:229-243 | The literal builder consumes `true` or `false` and returns an expression with children. |
| PreprocessorSpec.NotExpression | Project.AutoFix/Src/AddIns/CSharp/CodeModel/CodeParser.Preprocessor.cs:373-402 | A `!` expression that succeeds consumes symbols and has children. |
| PreprocessorSpec.Bracketed | Project.AutoFix/Src/AddIns/CSharp/CodeModel/CodeParser.Preprocessor.cs:424-447 | The children of a parenthesized expression are its middle plus the two brackets. |
| PreprocessorSpec.ParenthesizedExpression | Project.AutoFix/Src/AddIns/CSharp/CodeModel/CodeParser.Preprocessor.cs:409-454 | A parenthesized expression that succeeds consumes symbols and has children. |
| PreprocessorSpec.CloseParenthesized | Project.AutoFix/Src/AddIns/CSharp/CodeModel/CodeParser.Preprocessor.cs:429-453 | Closing consumes at least the `)` after the inner expression. |
| PreprocessorSpec.BinaryExpression | Project.AutoFix/Src/AddIns/CSharp/CodeModel/CodeParser.Preprocessor.cs:463-570 | A binary builder never moves the cursor back, and it consumes the operator when it builds. |
| PreprocessorSpec.CompleteBinary | Project.AutoFix/Src/AddIns/CSharp/CodeModel/CodeParser.Preprocessor.cs:488-510 | A built binary expression ends where its right-hand side ends. |
| PreprocessorSpec.FamilyOf | Project.AutoFix/Src/AddIns/CSharp/CodeModel/CodeParser.Preprocessor.cs:275-286 | The switch hands each pp-expression operator to the builder that accepts it. |
| PreprocessorSpec.ExpressionExtension | Project.AutoFix/Src/AddIns/CSharp/CodeModel/CodeParser.Preprocessor.cs:252-292 | An extension never moves the cursor back, and it consumes a symbol when it builds. |
| PreprocessorSpec.Extensions | Project.AutoFix/Src/AddIns/CSharp/CodeModel/CodeParser.Preprocessor.cs:184-204 | The extension loop returns the original primary expression. |
| PreprocessorParser.Proxy.Add | Project.AutoFix/Src/AddIns/CSharp/CodeModel/CodeParser.Preprocessor.cs:240 | `Children.Add` appends the unit. |
| PreprocessorParser.Predicted | Project.AutoFix/Src/AddIns/CSharp/CodeModel/CodeParser.Preprocessor.cs:139-220 | The state a builder should leave: the function's error, or its expression and cursor with the appended units after the proxy's old children. |
| PreprocessorParser.Observed | Project.AutoFix/Src/AddIns/CSharp/CodeModel/CodeParser.Preprocessor.cs:139-220 | The state a builder did leave, in the same shape. |
| PreprocessorParser.MoveChildren | Project.AutoFix/Src/AddIns/CSharp/CodeModel/CodeParser.Preprocessor.cs:208-216 | Every child is moved, in order, to the end of the parent proxy, and the source proxy is left empty. |
| PreprocessorParser.Parser.constructor | Project.AutoFix/Src/AddIns/CSharp/CodeModel/CodeParser.Preprocessor.cs:97-100 | A parser starts at the first symbol. |
| PreprocessorParser.Parser.AdvancePastTrivia | Project.AutoFix/Src/AddIns/CSharp/CodeModel/CodeParser.Preprocessor.cs:298-337 | The cursor moves to the end of the trivia run, and one node per trivia symbol is appended to the proxy in source order. |
| PreprocessorParser.Parser.GetExpression | Project.AutoFix/Src/AddIns/CSharp/CodeModel/CodeParser.Preprocessor.cs:121-126 | The entry point reads at no precedence and leaves exactly what NextExpression predicts. |
| PreprocessorParser.Parser.GetNextExpression | Project.AutoFix/Src/AddIns/CSharp/CodeModel/CodeParser.Preprocessor.cs:139-220 | Leaves exactly what NextExpression predicts: the same error, or the same expression, cursor and parent children. |
| PreprocessorParser.Parser.ReadExtendedPrimary | Project.AutoFix/Src/AddIns/CSharp/CodeModel/CodeParser.Preprocessor.cs:153-219 | The dispatch, the extension loop and the final move leave what ExtendedPrimary predicts. |
| PreprocessorParser.Parser.ExtendPrimary | Project.AutoFix/Src/AddIns/CSharp/CodeModel/CodeParser.Preprocessor.cs:186-216 | The loop fails with the error Extensions gives. Otherwise the parent proxy gains the units Extensions lists and the cursor ends where it says. |
| PreprocessorParser.Parser.GatherExtensions | Project.AutoFix/Src/AddIns/CSharp/CodeModel/CodeParser.Preprocessor.cs:186-204 | The extension loop ends with the last proxy holding what Extensions lists, at its cursor, or fails with its error. |
| PreprocessorParser.Parser.GetPrimaryExpression | Project.AutoFix/Src/AddIns/CSharp/CodeModel/CodeParser.Preprocessor.cs:153-181 | The switch on the symbol type leaves what PrimaryExpression predicts. |
| PreprocessorParser.Parser.CreateLiteralExpression | Project.AutoFix/Src/AddIns/CSharp/CodeModel/CodeParser.Preprocessor.cs:229-243 | Leaves what LiteralExpression predicts. |
| PreprocessorParser.Parser.GetConstantExpression | Project.AutoFix/Src/AddIns/CSharp/CodeModel/CodeParser.Preprocessor.cs:344-366 | Leaves what ConstantExpression predicts. |
| PreprocessorParser.Parser.GetNotExpression | Project.AutoFix/Src/AddIns/CSharp/CodeModel/CodeParser.Preprocessor.cs:373-402 | Leaves what NotExpression predicts. |
| PreprocessorParser.Parser.GetParenthesizedExpression | Project.AutoFix/Src/AddIns/CSharp/CodeModel/CodeParser.Preprocessor.cs:409-454 | Leaves what ParenthesizedExpression predicts. |
| PreprocessorParser.Parser.CloseParenthesizedExpression | Project.AutoFix/Src/AddIns/CSharp/CodeModel/CodeParser.Preprocessor.cs:429-453 | The checks after the inner expression, the `)` token and the bracket pairing leave what CloseParenthesized predicts. |
| PreprocessorParser.Parser.GetExpressionExtension | Project.AutoFix/Src/AddIns/CSharp/CodeModel/CodeParser.Preprocessor.cs:252-292 | Leaves what ExpressionExtension predicts. |
| PreprocessorParser.Parser.GetBinaryExpression | Project.AutoFix/Src/AddIns/CSharp/CodeModel/CodeParser.Preprocessor.cs:463-570 | The equality and and/or builders leave what BinaryExpression predicts. |
| PreprocessorParser.Parser.CompleteBinaryExpression | Project.AutoFix/Src/AddIns/CSharp/CodeModel/CodeParser.Preprocessor.cs:488-510 | The null check, the switch on the operator and the append leave what CompleteBinary predicts. |
| PreprocessorProperties.PrimaryDispatch | Project.AutoFix/Src/AddIns/CSharp/CodeModel/CodeParser.Preprocessor.cs:153-181 | A symbol that cannot start a primary raises SyntaxError at its line. A success builds a literal for a word, `true` or `false`, a not-expression for `!`, and a parenthesized expression for `(`. |
| PreprocessorProperties.ReturnsPrimary | Project.AutoFix/Src/AddIns/CSharp/CodeModel/CodeParser.Preprocessor.cs:184-219 | The expression a successful read returns is the primary expression at the first non-trivia symbol, whatever extensions follow. |
| PreprocessorProperties.NoExpressionAtEnd | Project.AutoFix/Src/AddIns/CSharp/CodeModel/CodeParser.Preprocessor.cs:153-154 | A read returns null exactly when only trivia is left. It then consumes the trivia into the parent. |
| PreprocessorProperties.NotOperand | Project.AutoFix/Src/AddIns/CSharp/CodeModel/CodeParser.Preprocessor.cs:384-395 | The operand is read at unary precedence and its error propagates. A null operand raises SyntaxError at the `!` line. Otherwise the expression holds the operand, and its children are the `!` token followed by what the operand read appended. |
| PreprocessorProperties.BracketsMatch | Project.AutoFix/Src/AddIns/CSharp/CodeModel/CodeParser.Preprocessor.cs:417-447 | The first child of a parenthesized expression is the open token and the last is the close token, each pointing at the other. |
| PreprocessorProperties.ParenthesisErrors | Project.AutoFix/Src/AddIns/CSharp/CodeModel/CodeParser.Preprocessor.cs:412-449 | At the end of input the read of the symbol's line fails. A symbol other than `(`, a null inner expression, or anything other than `)` after it raises SyntaxError at the `(` line. It succeeds exactly when `)` follows. |
| PreprocessorProperties.ExtensionOnlyAtOperator | Project.AutoFix/Src/AddIns/CSharp/CodeModel/CodeParser.Preprocessor.cs:264-291 | At the end of input, a `)`, or anything other than `==`, `!=`, `&&` and `\|\|`, no extension is built: null is returned after the trivia. |
| PreprocessorProperties.GatheredOnlyWhenAdmitted | Project.AutoFix/Src/AddIns/CSharp/CodeModel/CodeParser.Preprocessor.cs:476-511 | When CheckPrecedence refuses the operator, null is returned and the cursor stops at the operator. Building implies CheckPrecedence admitted it. |
| PreprocessorProperties.RightHandSide | Project.AutoFix/Src/AddIns/CSharp/CodeModel/CodeParser.Preprocessor.cs:484-510 | Once the operator is admitted, the right-hand side is read at the operator's precedence. Its error propagates, and a null one raises SyntaxError at the operator's line. Otherwise the expression holds the two sides, and its children are the operator token and what the right-hand side appended. |
| PreprocessorProperties.WrongFamily | Project.AutoFix/Src/AddIns/CSharp/CodeModel/CodeParser.Preprocessor.cs:504-505 | An operator handed to the builder of the other family raises SyntaxError at its line once its right-hand side is read. |
| PreprocessorProperties.ExtensionsStop | Project.AutoFix/Src/AddIns/CSharp/CodeModel/CodeParser.Preprocessor.cs:187-204 | The extension loop stops on a symbol that is not trivia and where no operator is admitted. |
| PreprocessorProperties.ExtensionStops | Project.AutoFix/Src/AddIns/CSharp/CodeModel/CodeParser.Preprocessor.cs:252-292 | An extension that builds nothing stops on a symbol that is not trivia and where no operator is admitted. |
| Text.TrimEnd | Project.AutoFix/Src/AddIns/CSharp/CodeModel/CodeParser.Preprocessor.cs:61 | The result is a prefix of its input, only whitespace was removed, and it does not end in whitespace. |
| Text.LeadingWhiteSpace | Project.AutoFix/Src/AddIns/CSharp/CodeModel/CodeParser.Preprocessor.cs:65-76 | The length of the whitespace run at the start of the text. |
| PreprocessorBody.DirectiveBody | Project.AutoFix/Src/AddIns/CSharp/CodeModel/CodeParser.Preprocessor.cs:58-84 | A start index outside the text is the only error. |
| PreprocessorBody.EmptyBody | Project.AutoFix/Src/AddIns/CSharp/CodeModel/CodeParser.Preprocessor.cs:61-108 | There is no body exactly when the text from the start index on is whitespace. |
| PreprocessorBody.BodyPlacement | Project.AutoFix/Src/AddIns/CSharp/CodeModel/CodeParser.Preprocessor.cs:61-82 | The body is the stretch of the text at its offset. Its offset grows by exactly the leading whitespace removed, and only whitespace lies around it. |
| PreprocessorBody.BodyTrimmed | Project.AutoFix/Src/AddIns/CSharp/CodeModel/CodeParser.Preprocessor.cs:61-84 | A body is not empty, and it starts and ends with a character that is not whitespace. |
| PreprocessorBody.GetBodyExpression | Project.AutoFix/Src/AddIns/CSharp/CodeModel/CodeParser.Preprocessor.cs:43-109 | An out-of-range start fails, and an empty body returns null, both leaving the parent untouched. Otherwise the lexer runs over the body at the shifted index and column, and the parse leaves what NextExpression predicts. |
| PreprocessorBody.LeadingWhiteSpaceIs | Project.AutoFix/Src/AddIns/CSharp/CodeModel/CodeParser.Preprocessor.cs:65-76 | The trim counter of the loop is the length of the leading whitespace run. |

## Left out

- The lexer (`CodeLexer`, `CodeReader`) is not part of this model. The body entry point takes it as a function parameter from the body text, index, column and line to the symbols.
- `SymbolManager` is a sequence of symbols with a cursor. `Peek(1)` at the end gives null.
- `CheckPrecedence`'s body is not part of this model. It is the function parameter `check`, with no assumption about it.
- `GetOperatorPrecedence` gives the pp-expression operators the order of section 9.5.2 of ECMA-334, 4th edition. Its other cases are not part of this model.
- `GetOperatorType` and `PeekOperatorSymbolToken` are folded into the symbol kind: an operator symbol carries its operator type.
- CreateLiteralExpression: `AdvanceToNextCodeSymbol` and `GetToken` are not part of this model. The literal consumes the `true` or `false` symbol directly.
- Debug.Assert checks are preconditions: the symbol at a constant is a word, and at a `!` there is a symbol.
- Location values are plain line and index integers. The document, generated flags and edit-version checks (`ValidateEditVersion`) are left out, because they do not affect the results.
- Evaluation of a preprocessor expression against the defined symbols is not in these files.
- The C# linked-list bookkeeping of lines 211–214 (`Detach`, `ContainingList`) is modelled as a move between sequences. A node held by two lists, and the aliasing between unit and proxy objects, are not modelled.
- The parser state after an exception is not specified: the contracts say only which error is raised.
- Text.IsWhiteSpace: `char.IsWhiteSpace` and `TrimEnd(null)` are approximated by ASCII whitespace plus U+00A0. Other Unicode separators are not modelled.
- Text.RemoveWhitespace: `CodeParser.RemoveWhitespace` is not part of this model. It is taken to drop every whitespace character.
- The navigation primitives of `CodeUnit` (`FindFirstChild`, `FindNextSibling`, `FindFirstDescendent`, `FindNextDescendentOf`, `FindLastDescendent`, `FindNextSiblingToken`, `Parent`) are not part of this model. They are defined over the arena layout in `CodeTree`.
- Element types are reduced to the results of their virtual members: `GetElementName`, `DefaultAccessModifierType` and `AllowedModifiers`. `FriendlyTypeText`, `ElementType` bit masks and `Tag` are left out.
- `WellFormed` takes from the parser that every open bracket token has a matching bracket after it and inside its parent's range. The `NullReferenceException` that `FindLastDeclarationToken` (Element.cs lines 870-873) would raise on an open bracket without a match is not modelled.
- ElementCache.ElementStore.Unsafe: after a scan error on the parent chain the cached flag may be false where the element is unsafe. In the source, false was stored before the scan raised. The contract states exactness only when every scan on the chain succeeds.
- ElementCache.ElementStore.ActualAccessLevel: the contract does not list which caches of the ancestors a call fills. It says only that they keep the invariant, that every filled cache stays filled, and that the caches of elements off the element's chain of ancestors are untouched. A failed call leaves the element's own actual access level cache empty.
- ElementCache.ElementStore.constructor: every cache starts empty, as after `Reset`. The Element constructor (Element.cs lines 133-158) instead fills the name, attributes and unsafe caches from the parser's arguments, and runs the modifier scan through `ContainsModifier`. The model takes those arguments to be the values the properties compute. An unsafe context passed in by the parser is not modelled.
- Edits to the document are not modelled: the tree of an `ElementStore` is constant, so a cache that `Reset` leaves filled stays right.
