# Staged validation for bioimage model metadata

This project models the core of `bioimg_rs`, a form editor for bioimage model
descriptions. Each form field is *staged*: it holds the raw input the user is
editing and the result of converting that input into a checked value. Optional
fields and lists own their staged children, and a record assembles its children's
results into one value or the first error. The leaf conversions modelled are the
three-component `Version` with its pinned `LiteralVersion`, and the `Age`. The one
record modelled is the citation entry `CiteEntry2`, with its conversion from the
older `CiteEntry`.

Modules, one per source file, plus `Results` for Rust's `Option` and `Result`:

- `Results` (`results.dfy`): Rust's `Option` and `Result`, and `Option::transpose`.
- `Versions` (`version.dfy`): `bioimg_spec/src/rdf/version.rs`. It covers text
  splitting, Rust's unsigned integer parsing, decimal formatting, parsing and
  formatting of versions, and pinned versions.
- `Ages` (`age.dfy`): `bioimg_gui/src/widgets/age_widget.rs`.
- `CiteEntries` (`cite_entry.dfy`): `bioimg_spec/src/rdf/cite_entry.rs`.
- `Staging` (`staging.dfy`): `bioimg_gui/src/widgets/mod.rs`. `StagingNum` and
  `StagingString` have the same behaviour and share the class `StagingScalar`.
  `StagingOpt` and `StagingVec` are classes that own `StagingScalar` children.
- `CiteWidget` (`cite_widget.dfy`): `StagingCiteEntry2`.

The form's staged fields are classes whose methods update them in place. Each
class except `StagingAge` has a `Valid()` invariant: a scalar's result is the conversion of its
current raw input, and a list is never empty and holds distinct children. A
citation's result is `Empty` or the assembly of its children's current states.
Drawing a widget becomes a method that takes the user's edit (and the buttons
clicked) as parameters. The conversions and the assembly are functions.

Two behaviours of the code worth knowing:

- A version component that fails to parse is reported before the number of
  components is checked. So `""` and `"1.2.bla"` both give `ParseIntError`.
- A citation's `Empty` error exists only before the first draw. After any draw,
  an empty text field gives the text field's own conversion error, even when the
  URL is present and invalid.

The record's errors are modelled as "which field failed plus its message".
The `?` operators in `do_draw_and_parse` turn a `GuiError` into
`CiteEntry2ParsingError`, but that type only has conversions from
`BoundedStringParsingError` and `url::ParseError`.

## Model

| member | source | states |
|---|---|---|
| `Versions.Decimal` | bioimg_spec/src/rdf/version.rs:61 | the text written for a number is non-empty, all decimal digits, and starts with `0` only for zero, which is written `"0"` |
| `Versions.DecimalValue` | bioimg_spec/src/rdf/version.rs:61 | the digits written for `n` denote `n` |
| `Versions.ParseUsize` | bioimg_spec/src/rdf/version.rs:40 | `parse::<usize>` fails with `Empty` exactly on empty text; otherwise it succeeds exactly when the text after one optional `+` is a non-empty run of digits whose value fits in `usize`, and then returns that value; a failing non-empty text gives `PosOverflow` when its leading digits already exceed `usize::MAX`, `InvalidDigit` otherwise |
| `Versions.AccumulateError` | bioimg_spec/src/rdf/version.rs:40 | the digit-by-digit parse fails with `PosOverflow` when its leading digits already exceed `usize::MAX`, and otherwise with `InvalidDigit` at the first non-digit |
| `Versions.ParseDecimal` | bioimg_spec/src/rdf/version.rs:40 | parsing the decimal text of any `usize` gives it back |
| `Versions.Split` | bioimg_spec/src/rdf/version.rs:39 | `split(".")` gives one more piece than there are dots; no piece holds a dot, and joining the pieces with dots gives the text back |
| `Versions.SplitJoin` | bioimg_spec/src/rdf/version.rs:39 | splitting the join of dot-free pieces gives those pieces back |
| `Versions.CollectParts` | bioimg_spec/src/rdf/version.rs:38-41 | collecting the parsed components succeeds exactly when every component parses; the values are then the components' values, in order |
| `Versions.CollectFirstFailure` | bioimg_spec/src/rdf/version.rs:38-41 | when some component fails, the collected error is that of the first failing component |
| `Versions.FirstFailureExists` | bioimg_spec/src/rdf/version.rs:38-41 | if not every component parses, a first failing component exists |
| `Versions.Parse` | bioimg_spec/src/rdf/version.rs:35-51 | parsing succeeds exactly with three components that all parse; the fields are components 0, 1, 2. If all parse but the count is not three, the error is `WrongNumberOfComponents` with the count. If some component fails, the error is a `ParseIntError` |
| `Versions.ParseFirstFailure` | bioimg_spec/src/rdf/version.rs:38-41 | a failing component is reported as `ParseIntError` of the first failing one, before the count is looked at |
| `Versions.ParseWrongCount` | bioimg_spec/src/rdf/version.rs:42-44 | with every component valid and a dot count other than two, the error is `WrongNumberOfComponents` with found equal to the dot count plus one |
| `Versions.Format` | bioimg_spec/src/rdf/version.rs:59-63 | the text of a version has exactly two dots, and its components are the decimal major, minor and patch, in that order |
| `Versions.ParseFormat` | bioimg_spec/src/rdf/version.rs:35-63 | round trip: parsing the text of any version gives `Ok` of that version |
| `Versions.ParseExampleAccepted` | bioimg_spec/src/rdf/version.rs:69-78 | `"1.2.3"` parses to `{1, 2, 3}` |
| `Versions.ParseExamplesRejected` | bioimg_spec/src/rdf/version.rs:79-88 | `"1.2"` gives `WrongNumberOfComponents{found: 2}`; `"1.2.bla"` gives `ParseIntError` of kind `InvalidDigit`; `""` gives `ParseIntError` of kind `Empty` |
| `Versions.ParseLeadingZero` | bioimg_spec/src/rdf/version.rs:38-49 | parsing is not injective: `"01.2.3"` and `"1.2.3"` give the same result |
| `Versions.LiteralInto` | bioimg_spec/src/rdf/version.rs:96-104 | a literal version converts to the version made of its three constants |
| `Versions.LiteralTryFrom` | bioimg_spec/src/rdf/version.rs:106-119 | a version is accepted exactly when all three fields equal the constants; otherwise the error is `UnexpectedVersion` with the pinned version expected and the given version found, unchanged |
| `Versions.LiteralRoundTrip` | bioimg_spec/src/rdf/version.rs:96-119 | a literal version accepts its own version, and no other |
| `Versions.LiteralFromText` | bioimg_spec/src/rdf/version.rs:91-119 | the text of a pinned version parses, and the result is accepted by the literal version |
| `Ages.AgeTryFrom` | bioimg_gui/src/widgets/age_widget.rs:16-24 | a byte converts to an age exactly when it is at most 120, and the age then holds that byte; the only error is `TooOld` |
| `Ages.AgeToUsize` | bioimg_gui/src/widgets/age_widget.rs:11-15 | an age converts to a number at most 120, and converting that number back gives the same age |
| `Ages.AgeBounds` | bioimg_gui/src/widgets/age_widget.rs:19-22 | 0 and 120 are ages; 121 is `TooOld`; an accepted byte converts back to itself |
| `Ages.StagingAge.constructor` | bioimg_gui/src/widgets/age_widget.rs:34-35 | the default raw byte is 0, which is a valid age |
| `Ages.StagingAge.DrawAndUpdate` | bioimg_gui/src/widgets/age_widget.rs:38-46 | the edited byte is kept as the raw value even when rejected, and the result is its conversion |
| `CiteEntries.FromCiteEntry` | bioimg_spec/src/rdf/cite_entry.rs:20-28 | the conversion always succeeds: the text is unchanged, and the DOI and URL become present |
| `CiteEntries.FromCiteEntryInjective` | bioimg_spec/src/rdf/cite_entry.rs:20-28 | distinct entries convert to distinct entries |
| `CiteEntries.FromCiteEntryImage` | bioimg_spec/src/rdf/cite_entry.rs:13-28 | the converted entries are exactly those whose DOI and URL are both present |
| `Staging.StagingScalar.constructor` | bioimg_gui/src/widgets/mod.rs:36-47 | a new scalar holds the default raw input and its conversion already, with no unvalidated state; `StagingString`'s `Default` and `new` (lines 82-109) behave the same |
| `Staging.StagingScalar.DrawAndParse` | bioimg_gui/src/widgets/mod.rs:58-62 | the result becomes the conversion of the edited raw input, whatever it was before; redrawing an unchanged input changes nothing (also `StagingString`, lines 119-135) |
| `Staging.StagingScalar.State` | bioimg_gui/src/widgets/mod.rs:64-66 | the state is the conversion of the current raw input |
| `Staging.StagingOpt.constructor` | bioimg_gui/src/widgets/mod.rs:142-143 | a new optional field is absent and its state is `None` |
| `Staging.StagingOpt.State` | bioimg_gui/src/widgets/mod.rs:173-175 | the state is `None` exactly when absent, otherwise `Some` of the child's conversion |
| `Staging.StagingOpt.Add` | bioimg_gui/src/widgets/mod.rs:156-160 | when absent, a fresh default child is installed, with state `Some` of the default's conversion; when present, nothing changes |
| `Staging.StagingOpt.Remove` | bioimg_gui/src/widgets/mod.rs:162-168 | the child is dropped and the state is `None` |
| `Staging.StagingOpt.DrawAndParse` | bioimg_gui/src/widgets/mod.rs:154-171 | when absent, only "Add" acts and the new child is not drawn; when present, the child is reparsed from the edit, then dropped if the remove button was clicked |
| `Staging.StatesOf` | bioimg_gui/src/widgets/mod.rs:224-226 | one result per child, in order, each the child's own result |
| `Staging.StagingVec.New` | bioimg_gui/src/widgets/mod.rs:186-193 | a new list holds exactly one fresh default child |
| `Staging.StagingVec.State` | bioimg_gui/src/widgets/mod.rs:224-226 | the state has one entry per child, entry i being child i's state, that is, the conversion of its raw input; no error cuts it short |
| `Staging.StagingVec.ParseItems` | bioimg_gui/src/widgets/mod.rs:207-212 | every child is redrawn in order; an edited child takes its edit, and an unedited one keeps both its raw input and its result |
| `Staging.StagingVec.DrawAndParse` | bioimg_gui/src/widgets/mod.rs:204-222 | the children are redrawn, then the buttons act; the children that remain are the same objects with their edits; the length follows the clicks, and an added child is fresh and default |
| `Staging.StagingVec.Click` | bioimg_gui/src/widgets/mod.rs:213-220 | "Add" then "Remove" act on the list; its length follows the clicks, the children kept are the same objects, and an added child is fresh and default |
| `Staging.StagingVec.Grow` | bioimg_gui/src/widgets/mod.rs:214-216 | a default child is appended and the earlier children are unchanged |
| `Staging.StagingVec.Shrink` | bioimg_gui/src/widgets/mod.rs:217-219 | the last child is removed only when more than one remains, so the list is never empty |
| `Staging.Resized` | bioimg_gui/src/widgets/mod.rs:213-220 | the buttons change the length by at most one and never empty a non-empty list |
| `CiteWidget.Assemble` | bioimg_gui/src/widgets/cite_widget.rs:61-65 | a text error is the record's error whatever the DOI and URL hold; the record succeeds exactly when the text is valid and neither optional field is present and invalid, and its fields are then the text and the transposed optionals; the result is never `Empty` |
| `CiteWidget.AssembleFirstError` | bioimg_gui/src/widgets/cite_widget.rs:61-65 | the record fails exactly when some field fails, with the first failing field's error in the order text, DOI, URL |
| `CiteWidget.AssembleAbsentOptionals` | bioimg_gui/src/widgets/cite_widget.rs:63-64 | absent DOI and URL become `None` and never block the record |
| `CiteWidget.AssembleComplete` | bioimg_gui/src/widgets/cite_widget.rs:61-65 | assembling three valid fields gives the conversion of the complete `CiteEntry` |
| `CiteWidget.AssembleEmptyText` | bioimg_gui/src/widgets/cite_widget.rs:61-62 | when the text conversion keeps its text, an empty text fails, and the record reports the text field's own error rather than `Empty` |
| `CiteWidget.StagingCiteEntry2.constructor` | bioimg_gui/src/widgets/cite_widget.rs:31-40 | a new record has empty text, no DOI, no URL, and the result `Empty` |
| `CiteWidget.StagingCiteEntry2.DrawAndParse` | bioimg_gui/src/widgets/cite_widget.rs:43-76 | text, DOI and URL are redrawn in that order with their edits and clicks: the text and a kept DOI or URL child (the same object) hold their edits, a child added this frame is fresh with empty text; the stored result is the assembly of their new states, never `Empty` |
| `CiteWidget.StagingCiteEntry2.State` | bioimg_gui/src/widgets/cite_widget.rs:78-80 | the state is `Empty` (before the first draw) or the assembly of the children's current states |

## Left out

- Rendering with egui is not modelled: widgets, buttons, labels, grids, frames, error display and `egui::Id`. Drawing is modelled as a method that receives the user's edits and clicks.
- `InputLines` (single or multi-line text) is display-only. So `StagingString::new` and its `Default` are the same constructor.
- `TryFrom<String> for Version` hands its text to `TryFrom<&str>`. Dafny has one string type, so both are `Versions.Parse`.
- `Display for Version` writes the text of `Into<String>`, which is `Versions.Format`.
- `usize` is taken to be 64 bits wide.
- Error messages are opaque. `GuiError` (bioimg_gui/src/result.rs) is a message, and the text that `to_string` produces is not modelled.
- `BoundedString` (module `rdf::bounded_string`) is not part of this model. `ConfString` is text with length in [1, 1023], counted in characters. Its conversion, and the URL conversion of `StagingUrl` (module `widgets::url_widget`, also not part of this model), are parameters of `StagingCiteEntry2`. The default raw text of `StagingUrl` is taken to be the empty string, as for `StagingString`.
- `StagingOpt` and `StagingVec` take `StagingScalar` children only. Any staged widget fits in the source; the model's optional and list children are always `StagingScalar`, and it does not abstract over widget kinds.
- `StagingNum`'s fields are public, so other code could assign `raw` without recomputing `parsed`. `StagingVec.staging` is public too, so other code could build or truncate a list to zero items. The invariants hold for objects built with `new` and changed only through the methods.
- The `ParsingWidget` implementation for `Age` is left out: the trait `ParsingWidget` is not defined in `bioimg_gui/src/widgets/mod.rs`, and `age_widget` is not declared among that file's modules (mod.rs:6-21).
- Serde derive attributes are left out. The version test's JSON deserialization goes through `TryFrom<String>`, which is `Versions.Parse`; its case is `Versions.ParseExampleAccepted`. The `into = "String"` serialization is `Versions.Format`, and `Versions.ParseFormat` is the string round trip.
- icon_widget.rs (file I/O, image decoding, texture handles), cover_image.rs (image decoding and a floating-point aspect ratio) and rdf/model/mod.rs (declarations only) are not part of this model.
