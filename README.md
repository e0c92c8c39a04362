# google_fonts_url, modelled in Dafny

`google_fonts_url!` is a procedural macro. It turns a compile-time list of
font entries into a Google Fonts CSS2 API URL:

```
[("Open Sans", wght = [400, 700]), ("Roboto", ital = [(0, 400), (1, 700)])]
  => "https://fonts.googleapis.com/css2?family=Open+Sans:wght@400;700&family=Roboto:ital,wght@0,400;1,700&display=swap"
```

Each entry is a tuple. Its first element is the family name as a string
literal; spaces in the name become `+`. The rest of the tuple holds
assignments:

- `wght = [...]` lists weights, as integer or string literals.
- `ital = [...]` lists `(italic, weight)` pairs of integer literals.

Italic pairs win over weights when both are given. An entry with neither
asks for no style at all. A malformed entry stops the expansion with a
compile-time panic; the model turns each panic into an error value.

The project has five modules:

- `MacroInput`: the part of the Rust expression syntax that the macro
  walks (literals, tuples, arrays, assignments, paths).
- `Strings`: `Join` (as Rust's slice `join`), plus `Split` and `IndexOf`.
- `FontsUrl`: the builder itself, in two forms. The specification
  functions (`WeightToken`, `ItalPair`, `ArgAxes`, `Arguments`,
  `EntryFragment`, `CompileUrl`, with `Collect` as "map, stopping at the
  first failure") say what the macro computes. The methods
  (`PushWeights`, `PushItals`, `PushArg`, `CompileEntry`, `GoogleFontsUrl`)
  are the macro's loops, which push onto `wghts`, `itals` and `families`.
  Each method is proved equal to its specification function.
- `UrlFormat`: decoders that take a URL, a family fragment and a style
  fragment apart again. They are the partners of the rendering functions,
  tied to them by round-trip lemmas.
- `Properties`: what the builder promises about whole entries and whole
  URLs. This covers failure propagation, skipped arguments, repeated
  assignments, italics overriding weights, the rendered fragment shapes,
  and worked examples.

Behaviours of the code worth noting, all modelled as written:

- An empty list of entries is accepted. It yields
  `https://fonts.googleapis.com/css2?&display=swap` and does not fail.
- The attribute keys are `wght` and `ital`.
- An argument that is not an assignment is skipped silently. So is a
  `wght`/`ital` assignment whose right side is not an array literal.
- A bad italic element fails in one of two distinct ways. A 2-tuple whose
  parts are not both integer literals raises "Invalid ital tuple";
  anything else raises "Invalid ital value".
- An assignment whose left side is not a path raises its own failure,
  "Expected identifier".

## Model

| member | source | states |
|---|---|---|
| FontsUrl.GoogleFontsUrl | src/lib.rs:6-94 | The macro's outer loop returns exactly `CompileUrl(input)`: the URL when every entry renders, otherwise the failure of the first bad entry. |
| FontsUrl.CompileEntry | src/lib.rs:11-88 | One pass of the entry loop returns exactly `EntryFragment(entry)`: the fragment, or the failure the entry raises. |
| FontsUrl.PushArg | src/lib.rs:24-71 | One pass of the argument loop: the result is the old `wghts`/`itals` extended by what `ArgAxes` says the argument contributes, or that argument's failure. |
| FontsUrl.PushWeights | src/lib.rs:33-45 | Pushing a `wght` array appends the tokens `Collect(elts, WeightToken)` gives to `wghts`, in order, or fails as that does. |
| FontsUrl.PushItals | src/lib.rs:48-67 | Pushing an `ital` array appends the pairs `Collect(elts, ItalPair)` gives to `itals`, in order, or fails as that does. |
| FontsUrl.Collect | src/lib.rs:10-72 | Walking a list and stopping at the first panic: the result is Ok exactly when every element is. It then has one value per element, in order. Otherwise its error is the error of some element. |
| FontsUrl.CollectFirstError | src/lib.rs:10-72 | When the elements before `k` succeed and element `k` fails, the walk fails with element `k`'s error, whatever follows. |
| FontsUrl.CollectAllOk | src/lib.rs:10-72 | When every element gives its value, the walk gives exactly those values. |
| FontsUrl.CollectAppend | src/lib.rs:10-72 | Walking `a + b` is walking `a`, then `b`: the values concatenate, and the first failure wins. |
| FontsUrl.WeightToken | src/lib.rs:35-43 | A weight is accepted exactly when it is an integer or string literal; an integer renders as its base-10 digits, a string as its value; anything else fails with InvalidWeight. |
| FontsUrl.ItalPair | src/lib.rs:50-65 | An italic element is accepted exactly when it is a 2-tuple of two integer literals, and then renders as the first literal's digits, `,`, the second literal's digits. A rejected 2-tuple fails with InvalidItalTuple; any other element fails with InvalidItalValue. |
| FontsUrl.ArgAxes | src/lib.rs:25-71 | Non-assignments, and `wght`/`ital` assignments without an array, contribute nothing. A successful argument adds to at most one of the two lists. An UnknownAttribute failure carries the key that was used. |
| FontsUrl.AppendAxesLaws | src/lib.rs:37-59 | Appending contributions (the pushes onto `wghts` and `itals`) has the empty contribution as unit on both sides and is associative. |
| FontsUrl.MergeKeepsEmpty | src/lib.rs:21-72 | `wghts` stays empty when no argument adds weights, and `itals` stays empty when no argument adds italics. |
| FontsUrl.MergeAppend | src/lib.rs:24-72 | Merging the contributions of `a + b` gives those of `a` followed by those of `b`: the argument loop's pushes accumulate in order. |
| FontsUrl.ArgumentsOk | src/lib.rs:24-72 | The argument loop succeeds exactly when every argument does; a failure is the failure of one of the arguments. |
| FontsUrl.ArgumentsAllOk | src/lib.rs:24-72 | When every argument succeeds, the loop gives the merge of their contributions. |
| FontsUrl.ArgumentsSingle | src/lib.rs:24-72 | The argument loop over one argument gives that argument's contribution. |
| FontsUrl.ArgumentsAppend | src/lib.rs:24-72 | The argument loop over `a + b` is the loop over `a`, then over `b`: the lists concatenate and the first failure wins. |
| FontsUrl.Normalize | src/lib.rs:17 | The name keeps its length; every space becomes `+` and every other character is kept, so no space is left. |
| FontsUrl.Style | src/lib.rs:74-80 | The style is empty exactly when there are neither italics nor weights; which of the two it names is stated by UrlFormat.DecodeStyleOf. |
| FontsUrl.Family | src/lib.rs:82-86 | For any name, the fragment is `family=`, then the name verbatim, then `:` and the style exactly when the style is non-empty; UrlFormat.DecodeFamilyOf gives name and style back. |
| FontsUrl.Assemble | src/lib.rs:91-94 | The URL starts with `https://fonts.googleapis.com/css2?` and ends with `&display=swap`. |
| FontsUrl.EntryFragment | src/lib.rs:11-88 | A rendered entry is a tuple whose first element is a string literal, and its fragment starts with `family=`. |
| FontsUrl.CompileUrl | src/lib.rs:8-94 | The expansion succeeds exactly when every entry renders. |
| FontsUrl.CompileUrlFails | src/lib.rs:10-13 | The first entry that fails decides the failure of the whole expansion, whatever follows it. |
| FontsUrl.CompileUrlSucceeds | src/lib.rs:88-94 | When every entry renders, the URL is assembled from their fragments in input order. |
| Strings.JoinAppend | src/lib.rs:93 | `Join`, as `join` at lines 75, 77 and 93, puts exactly one separator between the joins of two non-empty lists. |
| Strings.SplitJoin | src/lib.rs:75-77 | Splitting undoes `Join` when no part contains the separator, so the joined list can be read back part by part. |
| UrlFormat.DecodeAssemble | src/lib.rs:91-94 | The URL decodes back to exactly the family fragments, in input order, each once, between prefix and suffix. This needs non-empty fragments without `&`. |
| UrlFormat.DecodeFamilyOf | src/lib.rs:82-86 | A fragment decodes back to its name and style; without a style it contains no `:`. |
| UrlFormat.DecodeStyleOf | src/lib.rs:74-80 | The style decodes to the italic pairs whenever there are any, otherwise to the weights, otherwise to no style. |
| Properties.CompiledUrlShape | src/lib.rs:88-94 | A successful URL decodes to one fragment per entry, in input order, each equal to that entry's fragment. |
| Properties.CompiledUrlFrame | src/lib.rs:91-94 | Every successful URL starts with `https://fonts.googleapis.com/css2?` and ends with `&display=swap`. |
| Properties.CompileEmpty | src/lib.rs:91-94 | An empty entry list is accepted and gives `https://fonts.googleapis.com/css2?&display=swap`. |
| Properties.MalformedEntryAborts | src/lib.rs:11-19 | An entry fails with ExpectedTuple when it is not a tuple, NameRequired when it is empty, and NameNotString when its first element is not a string literal. |
| Properties.MalformedArgumentFails | src/lib.rs:26-69 | An argument fails with ExpectedIdentifier when its left side is not a path, and UnknownAttribute when its key is not `wght`/`ital`. One bad weight makes it fail with InvalidWeight; one bad italic element with an italic failure. |
| Properties.MalformedArgumentAborts | src/lib.rs:24-72 | A failing argument in any entry makes the whole expansion fail. |
| Properties.SameStyleSameEntry | src/lib.rs:74-88 | An entry's result depends on its arguments only through the style they ask for, or the failure they raise. |
| Properties.SkippedArgumentIgnored | src/lib.rs:25 | Dropping an argument that contributes nothing does not change the entry's result. |
| Properties.SkippedArgumentArguments | src/lib.rs:24-72 | Such an argument leaves the collected lists, or the first failure, as they are. |
| Properties.ArgumentsPair | src/lib.rs:24-72 | Two arguments contribute the first one's lists followed by the second one's, or the first failure. |
| Properties.RepeatedWeights | src/lib.rs:32-46 | Two `wght` assignments collect the same weights as one assignment of both arrays. |
| Properties.RepeatedItalics | src/lib.rs:47-68 | Two `ital` assignments collect the same pairs as one assignment of both arrays. |
| Properties.RepeatedUnknown | src/lib.rs:69 | Assignments to any other key fail with UnknownAttribute carrying that key, whether split in two or given as one. |
| Properties.RepeatedAssignmentsAccumulate | src/lib.rs:21-71 | `key = a, key = b` renders like `key = a ++ b` for every key: `wght` and `ital` append, any other key fails the same way on both sides. |
| Properties.ItalicsOverrideWeightsStyle | src/lib.rs:74-80 | With non-empty italics, a preceding valid weight list does not change the style. |
| Properties.ItalicsOverrideWeights | src/lib.rs:74-80 | A `wght` assignment followed by a non-empty `ital` assignment renders as if the weights were absent. |
| Properties.ItalicsOverrideWeightsAll | src/lib.rs:74-77 | Whatever the arguments and their order, once they collect a non-empty italic list the entry renders as that `ital` assignment alone. |
| Properties.ItalicsDecideStyle | src/lib.rs:74-77 | Arguments that collect a non-empty italic list ask for the same style as that `ital` assignment alone, whatever weights they hold. |
| Properties.ItalicsBeforeWeights | src/lib.rs:74-77 | A non-empty `ital` assignment followed by a valid `wght` assignment also renders as if the weights were absent. |
| Properties.NamedEntryDecodes | src/lib.rs:15-86 | A string-named entry (no `:` in the name) whose arguments are valid renders, and the fragment decodes back to the normalised name and the style its arguments ask for. |
| Properties.WeightTokensRendered | src/lib.rs:36-41 | An integer weight renders as its digits and a string weight verbatim, one token per element, in order. |
| Properties.WeightsOnlyStyle | src/lib.rs:76-77 | A lone `wght` assignment asks for `wght@` followed by its tokens joined by `;`. |
| Properties.WeightsOnlyFragment | src/lib.rs:74-86 | With weights only, the fragment is `family=<name>:wght@` followed by the tokens joined by `;`. |
| Properties.ItalicsOnlyStyle | src/lib.rs:74-75 | A lone `ital` assignment asks for `ital,wght@` followed by its pairs joined by `;`. |
| Properties.ItalicsOnlyFragment | src/lib.rs:74-86 | With italics only, the fragment is `family=<name>:ital,wght@` followed by the pairs joined by `;`. |
| Properties.NameOnlyFragment | src/lib.rs:82-83 | An entry with only a name renders as `family=<name>`, whatever the name; without `:` in the name the fragment has no `:`. |
| Properties.NoStyleFragment | src/lib.rs:74-83 | An entry whose arguments add neither weights nor italics renders as `family=<name>`. |
| Properties.NormalizeAppend | src/lib.rs:17 | Space replacement works character by character, so it distributes over concatenation. |
| Properties.NormalizeKeepsSpaceless | src/lib.rs:17 | A name without spaces is kept as it is. |
| Properties.SingleEntryUrl | src/lib.rs:88-94 | One entry gives prefix, its fragment, suffix. |
| Properties.TwoEntryUrl | src/lib.rs:88-94 | Two entries give prefix, the first fragment, `&`, the second fragment, suffix. |
| Properties.NormalizeOpenSans | src/lib.rs:17 | `Open Sans` becomes `Open+Sans`. |
| Properties.ExampleOpenSans | src/lib.rs:6-94 | `("Open Sans", wght = [400])` expands to `...css2?family=Open+Sans:wght@400&display=swap`. |
| Properties.RobotoPairs | src/lib.rs:51-59 | `[(0, 400), (1, 700)]` renders as the pairs `0,400` and `1,700`. |
| Properties.ExampleRobotoItalics | src/lib.rs:6-94 | `("Roboto", ital = [(0, 400), (1, 700)])` expands to `...css2?family=Roboto:ital,wght@0,400;1,700&display=swap`. |
| Properties.ExampleUnknownAttribute | src/lib.rs:69 | `("A", foo = [400])` fails with UnknownAttribute carrying `foo`. |

## Left out

- Parsing the macro's token stream into syntax (`parse_macro_input!`) is left out. It belongs to the host compiler; the model starts from the syntax tree (`MacroInput.Expr`).
- Emitting the URL as a token stream (`quote!`) is left out; the model returns the string.
- The `google_fonts` wrapper macro (src/lib.rs:101-117) is left out. It only pastes the URL into an `rsx!` link element.
- A panic's message text is left out; each panic becomes a `Failure` value that names the cause. The text of the key is kept for UnknownAttribute.
- Literal parsing is left out. An integer literal is represented by the digit string that `base10_digits` yields. Suffixes, underscores and radix prefixes are the compiler's business. No range or value check is made, because the code makes none.
- Only the first segment of a path key is read, as in the code. The other segments are kept in `Path.tail` and ignored.
- Characters in names and string weights are not percent-encoded, because the code does not encode them either.
- Properties.CompiledUrlShape: the decoding half assumes that no fragment contains `&`. The builder escapes nothing, so a name or a string weight containing `&` yields a URL whose pieces cannot be told apart.
- UrlFormat.DecodeFamilyOf: the round trip assumes that the normalised name contains no `:`, for the same reason.
- UrlFormat.DecodeStyleOf: the round trip assumes that no token or pair contains `;`, for the same reason.
- A worked example with two families in one URL is stated generically by Properties.TwoEntryUrl, not for literal names.
