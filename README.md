# react-forms-zod: the user form's schema and state, in Dafny

The application is a single form. It collects a user's name, email and
password, plus a growing list of technologies with a knowledge level for
each. On submit, the zod schema `createUserFormSchema` validates and
normalises the whole payload, and the normalised payload becomes the
component's `output`. This project models that schema and the form state
around it, and proves what they promise.

- `Text` (`text.dfy`): the JavaScript string operations the schema uses.
  These are `trim` (with ECMAScript's whitespace set), `split` and `join`
  on one character, `endsWith`, and ASCII upper/lower casing.
- `NameTransform` (`name_transform.dfy`): the name transform. It trims the
  name, splits it on `' '`, upper-cases each word's first character and
  joins the words with `' '`. `TitleCase` returns `None` exactly where the
  code throws, because `word[0]` is `undefined` on an empty word.
  `UpperWordStarts` is an independent definition: it upper-cases every
  character at position 0 or after a space.
- `Schema` (`schema.dfy`): the schema as the resolver runs it. `Validate`
  returns one of three outcomes:
  - `Parsed` holds the normalised payload.
  - `Rejected` holds a map from field path to message, with every failing
    field present and the first failing rule's message for each.
  - `Threw` is the TypeError from the name transform.
- `Form` (`form.dfy`): the class `UserForm` with the component's state.
  - Typing into an input changes that field's value.
  - `AppendTech` is `addNewTech`.
  - `Submit` is `handleSubmit(createUser)`. It overwrites `output` only on a
    successful parse.
  - Its invariant `Valid()` says that `output` only ever holds a payload
    that satisfies `NormalForm`.

Behaviour worth knowing, as the code has it:

- The required-name check (`min(1)`) runs on the raw, untrimmed name.
  A name of spaces only passes it. Trimming then leaves `""`, which
  splits into one empty word, and the transform throws.
- The name is split on single spaces, not on runs of whitespace. A name
  whose trimmed form holds two consecutive spaces also makes the transform
  throw; spaces only at the ends are trimmed away first and do no harm.
  `ValidateThrewIff` shows this happens whatever the other fields hold, so
  the submit then neither reports errors nor produces output.
- The email format check sees the raw value. The `.com.br` suffix check
  sees the lower-cased value, so `X@Y.COM.BR` passes it.
- The length rule on `techs` and the rules on each entry are all reported
  together.

## Model

| member | source | states |
|---|---|---|
| `Text.Trim` | src/App.tsx:12 | `name.trim()` is no longer than its input and neither starts nor ends with whitespace |
| `Text.TrimIsInfix` | src/App.tsx:12 | `name.trim()` is the infix that starts after the leading whitespace, and everything cut off before and after it is whitespace |
| `Text.TrimIdentity` | src/App.tsx:12 | a string is its own trim exactly when it is empty or starts and ends with non-whitespace |
| `Text.TrimEmptyIff` | src/App.tsx:12 | trimming leaves `""` exactly when every character is whitespace |
| `Text.JoinSplit` | src/App.tsx:12-14 | `split(' ')` then `join(' ')` gives back the trimmed name |
| `Text.SplitJoin` | src/App.tsx:12-14 | splitting a join of space-free words gives back the words, so the transform's output splits into its mapped words |
| `Text.SplitAllNonEmptyIff` | src/App.tsx:12-13 | `split(' ')` has no empty piece iff the string is non-empty, neither starts nor ends with a space and has no two adjacent spaces |
| `Text.LowerStringIsLowerCase` | src/App.tsx:19 | the lower-cased email holds no upper-case letter, and lower-casing is idempotent |
| `NameTransform.TitleCaseDefinedIff` | src/App.tsx:11-14 | the transform is defined (every `word[0]` exists) iff the trimmed name is non-empty and has no two consecutive spaces |
| `NameTransform.WhitespaceNameThrows` | src/App.tsx:12-13 | a name made only of whitespace makes the transform throw |
| `NameTransform.TitleCaseIsUpperWordStarts` | src/App.tsx:11-14 | where defined, the transform equals the trimmed name with each word-opening character upper-cased and every other character unchanged |
| `NameTransform.TitleCaseKeepsWords` | src/App.tsx:12-14 | the result has as many words as the trimmed name; word k is word k with its first character upper-cased and the same tail |
| `NameTransform.TitleCaseIdempotent` | src/App.tsx:11-14 | transforming a transformed name gives it back unchanged |
| `NameTransform.TitleCaseExample` | src/App.tsx:11-14 | "joão silva" becomes "João Silva" |
| `Schema.ErrorsExact` | src/App.tsx:8-29 | the error map has a path iff that field's rule fails: empty name, email not accepted, password shorter than 6, fewer than 2 techs, empty title at i, knowledge at i not a number in [1,100]; each path carries the first failing message of its chain, including the knowledge chain (not a number, then below 1, then above 100) |
| `Schema.ValidateRejectedErrors` | src/App.tsx:8-29 | a rejected submit carries the whole, non-empty error map of the form: with `Schema.ErrorsExact`, every failing rule at once under its path, and no other path |
| `Schema.ValidateParsedIff` | src/App.tsx:8-29 | a submit parses iff name is non-empty and transformable, email is non-empty, well-formed and ends in `.com.br` once lower-cased, password has at least 6 characters, and there are at least 2 techs, each with a title and knowledge in [1,100] |
| `Schema.ValidateParsedData` | src/App.tsx:11-28 | the parsed payload has the transformed name, the lower-cased email (all lower case, ending `.com.br`), the password as typed and each entry's title and number; it is in normal form, its name a fixed point of the transform |
| `Schema.ValidateThrewIff` | src/App.tsx:9-14 | the parse throws iff the name is non-empty but trims to `""` or its trimmed form holds two consecutive spaces, whatever the other fields hold |
| `Schema.BlankNameThrows` | src/App.tsx:9-13 | a whitespace-only name passes "O nome é obrigatório" and then makes the parse throw |
| `Schema.TooFewTechsRejected` | src/App.tsx:25-28 | fewer than 2 techs never parse, even when each entry is valid; a rejection then reports "Insira pelo menos duas tecnologias" under `techs` |
| `Schema.DefaultTechRejected` | src/App.tsx:26-27 | the entry `{title: '', knowledge: 0}` that "Add" appends fails both the title rule and the knowledge rule, so a form holding it cannot parse |
| `Schema.EmailDomainExamples` | src/App.tsx:16-22 | the suffix is checked after lower-casing: "X@Y.COM.BR" is accepted when well-formed, "x@y.com" never is |
| `Schema.KnowledgeBounds` | src/App.tsx:27 | knowledge 0 and 101 are out of range, 1 and 100 are in it |
| `Form.UserForm.constructor` | src/App.tsx:34-43 | the form starts with empty fields, no techs, no errors and an empty output |
| `Form.UserForm.AppendTech` | src/App.tsx:45-47 | the techs list grows by exactly one default entry at the end; everything else is unchanged |
| `Form.UserForm.EditName` | src/App.tsx:65 | typing into the name input sets that field only |
| `Form.UserForm.EditEmail` | src/App.tsx:74 | typing into the email input sets that field only |
| `Form.UserForm.EditPassword` | src/App.tsx:83 | typing into the password input sets that field only |
| `Form.UserForm.EditTechTitle` | src/App.tsx:103 | typing into `techs.i.title` changes that entry's title only |
| `Form.UserForm.EditTechKnowledge` | src/App.tsx:114 | typing into `techs.i.knowledge` changes that entry's knowledge only |
| `Form.UserForm.Submit` | src/App.tsx:49-52 | the schema runs on the current values; output is overwritten only when the parse succeeds (errors cleared), a rejection replaces the errors and keeps the output, a throw changes nothing; the output always stays in normal form |
| `Form.AppendTwiceThenSubmit` | src/App.tsx:45-47 | pressing "Add" twice on a fresh form gives two default entries, and submitting them fails and leaves the output empty |

## Left out

- Rendering, styling, the `<pre>` display and `console.log` (src/App.tsx:50, 54-136) are UI and I/O.
- `JSON.stringify` of the output is not modelled. `output` holds the normalised payload itself, and `None` stands for the initial `''`.
- The email format test of zod's `.email()` is library code. It is a parameter `isEmail` of the schema and of the form, and every property holds for any `isEmail` that meets the property's stated hypotheses.
- `Number()` coercion of the typed text is not modelled. Knowledge is the coerced number as an integer, and `None` stands for NaN.
- KnowledgeIssue: fractional numbers such as 1.5 are not represented. Zod accepts them, since the schema has no `.int()` rule.
- Casing is ASCII only and ignores the locale. `toLocaleUpperCase` and `toLowerCase` on other letters ("á", "Ç"), multi-character results ("ß" to "SS") and locale-specific mappings (a Turkish or Azeri locale upper-cases "i" to "İ", where `UpperChar` gives "I") are not modelled.
- Strings are sequences of Unicode code points. JavaScript counts UTF-16 code units, so lengths (`min(6)` on the password) and `word[0]` differ for characters outside the Basic Multilingual Plane.
- Re-validation on edit is not modelled. After the first submit the form library re-runs the resolver on every change, and the field array re-runs it after an append, rewriting the affected field's error; here `AppendTech`, `EditName`, `EditEmail`, `EditPassword`, `EditTechTitle` and `EditTechKnowledge` leave `errors` as the last submit set it.
- The resolver and form library internals are not modelled. This covers how inputs are bound, how the array-level `techs` message is nested beside the per-entry errors, and the focus handling. Errors are a flat path-to-message map.
- Before the first "Add", the form library may submit `techs` as `undefined`, which zod reports as "Required". The model starts from an empty list, so it reports too few techs instead.
- Submitting is asynchronous and the transform's exception escapes as a rejected promise. This is modelled as the synchronous outcome `Threw`, which leaves the state unchanged.
- Per-field display state (pristine or touched) is not modelled. Only the values, the error map and the output are.
