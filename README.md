# Email breach checker — a Dafny model of its verification pipeline

The program reads email addresses from a CSV file (or one typed by hand). It asks the
Have I Been Pwned API (version 3) about each address and flattens the answers into a
nine-column report. The report can be saved as CSV and/or Excel and mailed as an
attachment. This project models the decision and transformation logic of `script.py`
and proves properties about it:

- `Report`: `procesar_resultados`. It turns the ordered mapping from email to lookup
  result into report rows, with the field defaults `Desconocido`/`Desconocida`, the
  `", "` join of the data classes, the `Sí`/`No` flags and the `No comprometido`
  placeholder row.
- `Client`: the status dispatch of `verificar_correo`, and its re-issue of the request
  after a 429 answer. The recursion is written as a loop over a script of answers,
  one answer per request sent.
- `Batch`: `leer_csv` and the dict-filling loop of `verificar_correos_desde_archivo`.
  This includes Python's dict semantics for repeated addresses.
- `Dicts`: a Python `dict` as a value: its keys in insertion order, plus the mapping.
- `Output`: the choices made by `guardar_resultados`: the format menu, the output
  paths and the attachment choice.
- `Config`: `verificar_configuracion`.
- `Text`: `str(n)` and `int(s)` on digit strings, and `", ".join`, with its inverse
  used as a reading of the report column.
- `Pipeline`: lemmas that join a lookup's outcome to the rows it produces.
- `Wrappers`: `Option` and `Result`.

Where the code's behaviour may be unexpected, the model follows the code:

- A `Retry-After` header that `int()` cannot read raises `ValueError` in the code. It
  does not fall back to 1. `Client.Decide` yields `BadRetryAfter`, and the lookup ends
  in `Raised`. The fallback to 1 applies only when the header is absent.
- A failed lookup (`None`, from a 401 or any other unexpected status) yields the same
  `No comprometido` row as an address with no breaches. No separate "failed" row is
  produced. `Report.FailureLooksClean` and `Pipeline.AuthFailureReportedAsClean`
  state this.
- Network errors are not turned into a distinct failure value. The code lets them
  propagate, so they are outside the model rather than a lookup outcome.
- A blank line in the input CSV yields an empty record. `fila[0]` then raises
  `IndexError` before any lookup is made. `Batch.ReadEmails` returns `EmptyRecord(i)`
  for the first such record.

Lookups in the batch are given as a function `lookup(i, email)`: how the `i`-th call
ends, as a `Client.End`. With it, "the value of a repeated address is the result of
its last lookup" can be stated exactly. A lookup that raises (an unreadable
`Retry-After`) or that never returns (an endless run of 429 answers) ends the batch
right after its own call: the exception escapes `verificar_correos_desde_archivo`, the
addresses after it are not looked up, and no results are kept. Environment variables are given as a
`map<string, string>`.

## Model

| member | source | states |
|---|---|---|
| `Text.NatToString` | script.py:172 | `str(n)` of a count is a non-empty string of decimal digits, without a leading zero |
| `Text.ParseNat` | script.py:115 | `int(s)` succeeds exactly on non-empty digit strings |
| `Text.ParseNatToString` | script.py:172 | reading back the rendered count gives the count again (`int(str(n)) == n`) |
| `Text.NatToStringInjective` | script.py:172 | different counts render as different strings |
| `Text.SplitJoin` | script.py:173 | splitting the `", "` join of a non-empty, comma-free list gives the list back |
| `Dicts.Dict.Set` | script.py:145 | `d[k] = v` keeps a well-formed dict well formed; a present key keeps its position and a new key is appended; the value is replaced |
| `Dicts.Dict.Items` | script.py:163 | `items()` yields the pairs in key insertion order |
| `Report.YesNo` | script.py:174-175 | a flag renders `Sí` exactly when it is present and true, and `No` otherwise |
| `Report.BreachRowColumns` | script.py:166-176 | a breach row carries the email; the name, title and domain columns are the breach's fields, or `Desconocido` when missing; the date column is the breach date, or `Desconocida`; the data-class column is the `", "` join of the classes, or `Desconocido` when they are missing; the count column is `Desconocido` exactly when the count is missing and otherwise reads back as the count; the flag columns are `Sí` exactly when the flag is true, and never `-` |
| `Report.BreachRowsSnoc` | script.py:165-176 | the rows of a breach list extend, one breach at a time, by that breach's row: one row per breach, in list order |
| `Report.RowsForShape` | script.py:164-188 | a truthy list of K breaches gives K rows in list order; a falsy result (`[]` or `None`) gives exactly the placeholder row; every row carries the email |
| `Report.ProcessResults` | script.py:157-189 | the `append` loops build exactly the flattening of the dict's items, in iteration order |
| `Report.FlattenLength` | script.py:162-189 | the report has, summed over the entries, `max(1, len(breaches))` rows |
| `Report.FlattenAppend` | script.py:163-189 | the rows of consecutive runs of entries are concatenated in order |
| `Report.EntryRowsContiguous` | script.py:163-189 | the rows of each entry form one contiguous block, between the rows of the earlier entries and those of the later ones |
| `Report.BlockEmails` | script.py:164-188 | all rows produced for one entry carry that entry's email and no other |
| `Report.FlattenEmails` | script.py:163-189 | the set of emails in the report is exactly the set of keys: every entry is reported and nothing else is |
| `Report.FailureLooksClean` | script.py:164-188 | `None` and `[]` give identical rows: one `No comprometido` row with `-` everywhere else |
| `Report.PlaceholderIffDash` | script.py:174-188 | a report row is a placeholder exactly when its "Es verificado" column is `-` |
| `Report.DataClassesReadBack` | script.py:173 | the "Datos comprometidos" column, split at `", "`, gives back a non-empty, comma-free list of data classes |
| `Client.RetryAfter` | script.py:115 | a missing `Retry-After` means 1 second; a present one is read with `int()` |
| `Client.Decide` | script.py:106-121 | 200 returns the body, 404 returns `[]`, 429 retries after `Retry-After` seconds (or raises when the header is unreadable), and 401 and every other status fail |
| `Client.Replay` | script.py:80-121 | the recursive lookup sends at most one request per scripted answer and sleeps at most once per request |
| `Client.Lookup` | script.py:114-121 | the retry loop computes exactly the trace of the recursive lookup: its end, its sleeps and its request count |
| `Client.FirstFinalAnswerDecides` | script.py:114-118 | the outcome is that of the first answer that is not a retry; before it, the lookup sleeps once per 429 for its `Retry-After` and sends k+1 requests for k retries |
| `Client.OnlyRetriesNeverEnd` | script.py:114-118 | an unbroken run of readable 429 answers never ends the lookup: the code sets no retry count, and each answer costs one sleep and one more request |
| `Client.StatusOutcomes` | script.py:106-121 | a single 200 answer returns its body, a 404 returns `[]`, and 401 or any other non-429 status returns `None` |
| `Batch.ReadEmails` | script.py:67-78 | one address per record, equal to its first field, in file order, with duplicates kept; the first blank record raises instead |
| `Batch.DedupMembers` | script.py:143-145 | the dict's key order holds exactly the addresses that were read |
| `Batch.DedupFirstOccurrenceOrder` | script.py:143-145 | the dict's key order lists each address once, ordered by first occurrence in the file |
| `Batch.CollectResults` | script.py:143-147 | the batch succeeds exactly when every lookup returns; then there is one lookup per row, in row order, the dict is `Store`, the stores of `resultados[correo] = ...` in call order; its keys are the addresses read, in first-occurrence order, and each value is the result of that address's last lookup; otherwise the batch stops at the first lookup that raises or never returns, after calling it, with every earlier lookup having returned |
| `Batch.StoreCollected` | script.py:143-147 | the successive dict stores keep the keys in first-occurrence order and leave under each address the value of its last lookup |
| `Batch.VerifyFile` | script.py:136-147 | a blank record fails before any lookup is made; otherwise the rows are looked up in order and the results are collected as above, and a lookup that raises or never returns ends the batch after its own call |
| `Output.ParseFormatOption` | script.py:338-356 | `4` goes back; `1` selects CSV only, `2` Excel only and `3` both; anything else is invalid; every valid option writes at least one file |
| `Output.SelectFormats` | script.py:329-343 | the menu re-asks after every invalid answer and stops at the first answer that is valid |
| `Output.InOutputDir` | script.py:352-355 | a file goes inside `generados`, unless its name is absolute |
| `Output.OutputFiles` | script.py:347-356 | the CSV path is written exactly when CSV is chosen, and the Excel path exactly when Excel is chosen, with the extensions `.csv` and `.xlsx` |
| `Output.Attachment` | script.py:364 | the attachment is the Excel file if one was written, and the CSV file otherwise |
| `Output.PlanSave` | script.py:345-369 | a save is planned exactly for a valid option; it writes the chosen files; it mails exactly when the answer is `s` or `S` |
| `Output.MailCarriesPreferredFile` | script.py:363-369 | a mailed report goes to the recipient with the CSV file for option `1` and the Excel file otherwise; the "no file" branch is never taken |
| `Output.BothFormatsDistinctFiles` | script.py:351-356 | choosing both formats writes two different files |
| `Config.CheckConfiguration` | script.py:54-65 | true exactly when all five required variables are set and non-empty; otherwise it reports the first unset one, and all before it are set |
| `Pipeline.NotFoundGivesPlaceholderRow` | script.py:108-110 | an address whose lookup ends in 404 is reported as one `No comprometido` row with `-` in the other columns |
| `Pipeline.AuthFailureReportedAsClean` | script.py:111-113 | an address whose lookup ends in 401 gets the same row as an address with no breaches |

## Left out

- The HTTP request itself (httpx, the headers, `truncateResponse`), the socket timeout, and the debug printing of every answer are I/O. Each answer is an input value `Client.Response`.
- JSON decoding of the 200 body is done by a library. The body is given already parsed as a list of breaches. A body that is not such a list is not modelled.
- `time.sleep` is not modelled as a delay. The 429 back-off is recorded as the `sleeps` of a `Client.Run`. The 1.5-second pacing between batch lookups is not recorded.
- `Client.Lookup`: runs over a finite script of answers. When the script runs out while every answer was a readable 429, the run ends as `Waiting`. The code re-asks by plain recursion (`return verificar_correo(correo)`), so the only bound it has is the interpreter's recursion limit, which ends a long run of 429 answers with `RecursionError`. That limit is not modelled: a long run that ends with a 200 or a 404 returns in the model, and one that does not is `Waiting` rather than `RecursionError`.
- `Batch.CollectResults`: the exception that aborts a batch is caught by `main` (script.py:414), which reports it and leaves the menu loop. That handler belongs to the terminal interface and is not modelled.
- `Client.RetryAfter`: `int()` also accepts surrounding whitespace, a sign, `_` between digits and non-ASCII digits. The model accepts only ASCII digit strings and treats the rest as `ValueError`. A negative header value, which makes `time.sleep` raise, is therefore not representable.
- Opening the input file, and the CSV tokenisation done by `csv.reader`, are I/O. The input is the list of records it yields.
- Writing the files with pandas (`to_csv`, `to_excel`) and creating the `generados` directory are library I/O. So is the `except` branch of `guardar_resultados` that offers a retry after a write error.
- `Output.InOutputDir`: `pathlib` normalisation (repeated `/`, `.` segments) is not modelled beyond the absolute-name case.
- `Output.WantsMail` models `.lower() == 's'` for ASCII only.
- `enviar_correo` (MIME building, base64, SMTP with STARTTLS) is outside the model. The model stops at the decision to mail a given file to a given recipient.
- The terminal interface is left out: `mostrar_entradilla`, `mostrar_resultados`, `menu_principal`, `main`, `verificar_correos_csv`, `agregar_correo_manual` and `listar_archivos_csv`.
- `load_dotenv` and `os.getenv` are abstracted as a map from variable names to values.
- Breach fields are given the types the API documents: strings, a natural count, a list of strings and booleans. A field present with another JSON type, such as `null`, is not modelled.
