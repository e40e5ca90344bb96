# autoserver: write policy, template materialisation and hostname validation

This project models two small parts of autoserver, the script that lays out
a web project (configuration files from templates, symlinks, a virtualenv).

- **The gated file helpers.** `is_writable` is the write policy. It decides
  whether to create, overwrite or skip a path. It bases the decision on
  whether the path exists and on the run-wide `overwrite` flag, and it
  prints a line naming the path. `instance_template` applies that policy and
  then renders a template with Python's `string.Template.substitute`.
  `copy_template` applies it and then copies the template verbatim.
- **The hostname validator.** `is_valid_hostname` limits the length,
  strips one trailing dot and checks every dot-separated label against the
  letter-digit-hyphen rule of section 2.3.1 of RFC 1035, as relaxed by
  section 2.1 of RFC 1123.

The modules follow the program:

- `Results` holds the `Result` type.
- `Text` says what it means for one text to occur in another. The notices
  and the template scanner share it.
- `Labels` models `str.split` and `str.join` on one separator character.
- `Validators` models `is_writable` and `is_valid_hostname`.
- `HostnameGrammar` gives two independent definitions of a valid name and
  proves the validator agrees with both. One is the RFC grammar: labels
  joined by dots. The other is a character-level description: no empty
  label, no hyphen beside a dot, and a dot in every 64 characters.
- `StringTemplate` models `string.Template.substitute`. It has its own
  reference semantics (templates built from pieces, and their expansion)
  and an escaping inverse.
- `TemplateHelpers` models `instance_template` and `copy_template`.

The filesystem is a map from path to content. A map entry holds a file's
content as text: the string that `open(path).read()` returns in Python's
text mode, which decodes the bytes and turns `\r\n` and `\r` into `\n`.
`copy_template` copies bytes, so the copy reads back as the same text.
Each helper is a pure function that returns a `Run`: the line the write
policy printed, and then either the new filesystem or the exception the
Python code raises. The template is read and rendered before the
destination is opened. A missing template or a failed substitution
therefore leaves the caller's map as it was. `is_writable` reads
the map and returns a decision with its notice, so it cannot change the
filesystem, and it gives the same answer on the same state.

## Model

| member | source | states |
|---|---|---|
| Validators.IsWritable | util/validators.py:23-31 | An absent path is created whatever `overwrite` is. For an existing path the write goes ahead exactly when `overwrite` is set, as an overwrite, and otherwise it is skipped. The notice is the one for that outcome and contains the path. |
| Validators.NoticeIdentifiesOutcome | util/validators.py:25-30 | The three notices cannot be confused: equal notices mean the same outcome for the same path. |
| Validators.Notice | util/validators.py:25-30 | The line printed for each decision: `Creating [p]`, `path [p] exists, overwriting` or `path [p] exists, skipping`. Every one of them contains the path. |
| Validators.ValidLabel | util/validators.py:39 | A label is 1 to 63 ASCII letters, digits and hyphens, and neither starts nor ends with a hyphen. A valid label is never empty and holds no dot. |
| Validators.StripTrailingDot | util/validators.py:37-38 | A name ending in a dot loses exactly that one dot. Any other name is unchanged. |
| Validators.LabelsValid | util/validators.py:41 | Every part that `split('.')` gives is a valid label. |
| Validators.IsValidHostname | util/validators.py:34-44 | Inputs over 255 characters are rejected before any stripping. The empty input is its own error, because `arg[-1]` raises. On success the result is the input minus one trailing dot, if there is one, and all its labels are valid. Labels all valid after stripping implies success, and any other rejection is an invalid domain naming the stripped name. |
| HostnameGrammar.AcceptedIffDottedLabels | util/validators.py:37-44 | A name is accepted exactly when it has at most 255 characters and, minus one trailing dot, is valid labels (1 to 63 letters, digits or hyphens, no hyphen at either end) joined by dots. |
| HostnameGrammar.LabelsValidIffWellFormed | util/validators.py:39-41 | Splitting on dots and checking every label agrees with the character-level description of a valid name. |
| HostnameGrammar.AcceptedIffWellFormed | util/validators.py:34-44 | The validator accepts exactly the names of at most 255 characters whose stripped form fits the character-level description. |
| HostnameGrammar.ValidationIsIdempotent | util/validators.py:37-42 | Validating an accepted name again accepts it unchanged. |
| HostnameGrammar.ConsecutiveDotsRejected | util/validators.py:37-44 | A name with two dots in a row is rejected wherever they stand. This includes a trailing `..`, because only one dot is stripped. |
| HostnameGrammar.LoneDotRejected | util/validators.py:37-44 | `.` strips to the empty name and is rejected as an invalid domain. |
| HostnameGrammar.FullyQualifiedExample | util/validators.py:37-42 | `example.com.` is accepted as `example.com`. |
| Labels.Split | util/validators.py:41 | `str.split` on one character gives at least one part, no part holds the separator, and joining the parts gives back the input. |
| Labels.Join | util/validators.py:41 | `sep.join(parts)`: the parts in order with one separator between neighbours. An empty list joins to the empty string. |
| Labels.SplitJoin | util/validators.py:41 | Joining separator-free parts and splitting again gives back the parts. |
| StringTemplate.Substitute | util/template_helpers.py:10-11 | An invalid placeholder error points at a `$` of the template. A missing key error names an identifier that is absent from the symbols. |
| StringTemplate.ReadDirective | util/template_helpers.py:10-11 | What follows a `$`, trying in order: a second `$`, a named placeholder, a braced placeholder, and otherwise an invalid placeholder. The escape is chosen exactly when the next character is `$`. A placeholder's key is an identifier and lies inside the template. |
| StringTemplate.Scan | util/template_helpers.py:10-11 | The left-to-right scan from a position. An invalid placeholder error points at a `$` at or after that position, and a missing key error names an identifier that is absent from the symbols. |
| StringTemplate.SubstituteMatchesExpand | util/template_helpers.py:10-11 | A template made of literals, `$$` and `${id}` placeholders renders to their meaning: literals as themselves, `$$` as `$`, and placeholders as their symbols. It fails with the first missing key exactly when that meaning does. |
| StringTemplate.SubstituteEscapeRoundTrip | util/template_helpers.py:10-11 | Escaping any text by doubling its `$` and substituting gives the text back, whatever the symbols. |
| StringTemplate.SubstitutePlainText | util/template_helpers.py:10-11 | Text without `$` renders to itself. |
| StringTemplate.EscapedDollar | util/template_helpers.py:10-11 | `$$` renders as one `$` and scanning resumes after it. |
| StringTemplate.NamedPlaceholder | util/template_helpers.py:10-11 | `$id` that no identifier character follows renders as the symbol for `id`, or fails naming `id` when the key is missing. |
| StringTemplate.BracedPlaceholder | util/template_helpers.py:10-11 | `${id}` renders as the symbol for `id`, or fails naming `id` when the key is missing. |
| StringTemplate.LiteralText | util/template_helpers.py:10-11 | A run of text without `$` renders to itself, followed by the rendering of what comes after it. |
| StringTemplate.NamedPlaceholderIsLongest | util/template_helpers.py:10-11 | `$ab` asks for `ab` and never for `a`, and a hyphen ends an identifier: `$a-b` renders as the symbol for `a` followed by `-b`. |
| StringTemplate.InvalidDollar | util/template_helpers.py:10-11 | For every template and every `$` in it, scanning from that `$` fails with an invalid placeholder at its index exactly when the `$` is the last character, or the next character is not a `$`, does not start an identifier and does not open a brace that encloses one. |
| StringTemplate.InvalidPlaceholders | util/template_helpers.py:10-11 | Four worked examples: `5$` fails at index 1, and `$1`, `${a` and `${}` fail at index 0. |
| StringTemplate.IdentifierRun | util/template_helpers.py:10-11 | A named placeholder reads identifier characters up to the first character that is not one. |
| TemplateHelpers.InstanceTemplate | util/template_helpers.py:6-16 | The notice is the write policy's. When the policy skips, the filesystem is unchanged and the template is not needed. On success only the destination changes, and it holds exactly the substituted template. A write that goes ahead succeeds whenever the template exists and substitutes. A missing template or a failed substitution is an error, and when the write goes ahead a missing template is always `TemplateNotFound`. The symbols never include the names of the function's own parameters, because Python binds keyword arguments with those names to the parameters. |
| TemplateHelpers.ParameterNameIsNeverASymbol | util/template_helpers.py:6-11 | A template placeholder named after a parameter, such as `${overwrite}`, always fails as a missing key, even when the caller passed `overwrite=`. That keyword went to the parameter, not to the symbols. |
| TemplateHelpers.InstanceTemplateIgnoresPriorDestination | util/template_helpers.py:9-16 | Once the write goes ahead, the outcome does not depend on any of these: the destination's earlier content, whether it existed, the `overwrite` flag that let the write through, or the service name. This holds when the template is not the destination itself. |
| TemplateHelpers.InstanceTemplateIdempotent | util/template_helpers.py:7-16 | After a successful run, a second run with `overwrite` off changes nothing. A second run with `overwrite` on changes nothing too, provided the first run wrote the destination and the template is not the destination itself. Rendering a template onto itself is not idempotent: `$$a` becomes `$a`, and then the symbol for `a`. |
| TemplateHelpers.InstanceTemplateSameContent | util/template_helpers.py:9-16 | Rendering one template to two fresh destinations gives both the same content. |
| TemplateHelpers.CopyTemplate | util/template_helpers.py:19-22 | The notice is the write policy's. When the policy skips, the filesystem is unchanged. On success only the destination changes, and it becomes a copy of the template. When the write goes ahead, the copy succeeds whenever the template exists and is not the destination. A missing template is always `TemplateNotFound`. A template that is its own destination, overwritten, is always `SameFile`. These are the only errors. |
| TemplateHelpers.CopyTemplateIdempotent | util/template_helpers.py:19-22 | Re-running after a successful copy changes nothing, with or without `overwrite`. |
| TemplateHelpers.SiteScenario | util/template_helpers.py:6-16 | A worked example with the template `listen ${port};`. A fresh destination receives `listen 8080;`. A second run without `overwrite` keeps the earlier content and prints the skip notice. A template naming a missing key fails. |

## Left out

- autoserver.py is not part of this model. It covers argument parsing, directory creation, the `git` and `virtualenv` subprocesses, banners, re-executing under sudo and the deploy symlinks. All of that is input/output plumbing around the helpers modelled here.
- `is_valid_ip` and `is_valid_path`. They wrap the `ipaddress` library and the real filesystem, neither of which is modelled.
- Real file handles, and the gap between the existence check and the `open`. The filesystem is a map that nothing else changes during a call.
- Opening a destination whose parent directory does not exist. The map has no directories.
- Validators.LabelChar: the label alphabet is ASCII letters, digits and `-`. Python's pattern behaves differently in three ways: `\d` also matches non-ASCII digits, `IGNORECASE` folds a few non-ASCII letters onto `A-Z`, and `$` also matches before a final newline. So a label such as `a\n` is accepted by Python and rejected here.
- StringTemplate.Substitute: symbol values are already strings. Python applies `str()` to other values, such as the booleans and `None` in autoserver's settings.
- StringTemplate.Substitute: an invalid placeholder carries the index of its `$`. Python instead raises a `ValueError` with a line and column and a message, and those are not modelled.
- TemplateHelpers.CopyTemplate: `shutil.copyfile` raises `SameFileError` when source and destination are the same file. This is modelled by path equality, so hard links and symlinks to the same file are not detected.
- TemplateHelpers.InstanceTemplate: the text-mode reading and writing of files is not modelled. A template that cannot be decoded raises `UnicodeDecodeError`, and the model has no such error. A rendered text that cannot be encoded makes `dest_file.write` raise after `open(dest_path, 'w')` has already emptied the destination, and the model does not show that. A `\r` that a symbol value brings into the output is written as is, and reads back as `\n`.
- StringTemplate.SubstituteMatchesExpand: the pieces write placeholders in the braced form `${id}` only. The unbraced form `$id` is covered by NamedPlaceholder for any template, but not by the reference expansion.
- TemplateHelpers.InstanceTemplate: paths are compared as strings, so two spellings of one file are two different keys. Examples are `a` and `./a`, a symlink and its target, or two hard links. InstanceTemplateIdempotent and InstanceTemplateIgnoresPriorDestination require the template path to differ from the destination path as strings. If the template path is an alias of the destination, Python renders its own output again, which these lemmas do not cover.
- TemplateHelpers.CopyTemplate: `copy_template` accepts and ignores extra keyword arguments. The model omits that parameter.
- The service name is a parameter of both helpers and plays no part, because the line that printed it is commented out.
