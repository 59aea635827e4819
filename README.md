# Order extraction of the 9 Tones order bot, in Dafny

The bot (`bot.py`) reads free-text Georgian order messages from a chat. It cuts each
message into clauses and reads every clause as an order:
customer, amount, optional unit, product and optional comment.
Names are snapped to the known customers and products, and each order is written as a
row to a spreadsheet. The chat gets a reply line for each order, with a warning marker
for a name that is not in the catalog.

This project models that pipeline and proves what each stage promises:

- `wrappers.dfy`: `Option` and `Outcome`, a value or a raised exception.
- `text.dfy`: the Python string operations the bot relies on.
  - `str.isspace` (the same set as `\s` in a `str` pattern);
  - `str.strip`;
  - splitting on a set of separator characters, as `str.split` and `re.split` on a
    character class do.
- `segmenter.dfy`: the nested loops of `handle_message`, which turn a message into
  clauses. `Segment` is a method with the source's two loops; `Clauses` specifies it.
- `pattern.dfy`: the order pattern `(.+?)\s*\.\s*(\d+)(კგ|ც|ლ|გრამი)?\s+(.+?)(?:[,;]\s*(.*))?$`,
  applied with `re.match` to a stripped clause. Python's `$` also matches just before
  a final `'\n'`; `Parse` does not model that, because the clause it is given has been
  stripped (`Records.ExtractFromLine` always passes `Strip(line)`) and cannot end in one.
  - `Parse` is a deterministic matcher that makes the choices the backtracking
    regular-expression engine makes:
    - the shortest customer;
    - a whitespace run and a digit run that cannot give characters back usefully;
    - at most one unit;
    - the longest whitespace run before the product that still lets the rest match;
    - the shortest product, with the comment group tried before the end of the text.
  - `Derives` states the grammar relationally.
  - Soundness and completeness tie the two together: `Parse` succeeds exactly on the
    texts the grammar derives, with the shortest customer.
- `matcher.dfy`: `fuzzy_match`, the threshold gate on the best-scoring catalog entry.
  The similarity scorer is a parameter, any function into 0..100.
- `records.dfy`: `extract_data_from_line` and `call_gpt_fallback`. The fallback's
  external reply is a parameter: `Parsed(fields)` or `Failed`.
- `reports.dfy`: the reply line (raw names, amount, unit and additive warning markers)
  and the seven-cell sheet row.
- `handler.dfy`: `handle_message` as a loop over the clauses.
  - The reply the fallback receives for the k-th clause is `replies(k)`.
  - The clock reading taken while logging it is `clock(k)`.
  - An exception stops the loop, as it ends the Python handler.

## Model

| member | source | states |
|---|---|---|
| `Text.StripIdempotent` | bot.py:183 | stripping a stripped clause changes nothing |
| `Text.StripEmpty` | bot.py:183-184 | a piece strips to the empty string exactly when it is all whitespace, so exactly those pieces are dropped |
| `Text.SplitJoin` | bot.py:179 | splitting on one separator and joining the pieces back with it gives the text again: no character is lost or reordered |
| `Text.SplitAtSeparator` | bot.py:179-182 | a separator cuts a text into the pieces of its two sides, in order |
| `Segmenter.Segment` | bot.py:179-184 | the loops yield exactly `Clauses(text)`: lines in order, then each line's `;`/`,` pieces in order, stripped, empty ones dropped; every clause is non-empty, stripped and free of separators |
| `Segmenter.ClausesWellFormed` | bot.py:182-184 | every clause is non-empty, has no surrounding whitespace and holds no `'\n'`, `;` or `,` |
| `Segmenter.ClausesAtSeparator` | bot.py:179-182 | the clauses of a text cut at a separator are the clauses of the part before it followed by those of the part after it |
| `Segmenter.KeptFrom` | bot.py:183-184 | every clause is the stripped form of some piece of the message |
| `Segmenter.TwoOrdersOnOneLine` | bot.py:179-184 | two clauses written `first, second` on one line come out as `[first, second]` |
| `Pattern.SpaceRunLongest` | bot.py:59 | each `\s*`/`\s+` run takes every whitespace character up to the first other character |
| `Pattern.DigitRunLongest` | bot.py:59 | `(\d+)` takes every digit up to the first non-digit |
| `Pattern.UnitAtSound` | bot.py:59 | the unit group is one of `კგ`, `ც`, `ლ`, `გრამი` spelled at that position, or absent |
| `Pattern.UnitAtExact` | bot.py:59 | wherever a unit is spelled, the unit group reads exactly that unit (no two units share a first character) |
| `Pattern.FindProductSound` | bot.py:59 | the lazy product ends at the first position, from its minimum length on, where the text ends or a comment group matches the rest, and it contains no `'\n'` |
| `Pattern.FindProductComplete` | bot.py:59 | any end position allowed for the product is found, so the product found is never longer |
| `Pattern.BacktrackSpaceLongest` | bot.py:59 | the `\s+` before the product gives back whitespace only as far as needed: the longest run after which a product can be found is chosen |
| `Pattern.TryAtSound` | bot.py:59 | what follows a customer of a given length, when the matcher accepts it, is cut exactly as the pattern demands |
| `Pattern.TryAtComplete` | bot.py:59 | whenever the rest of the pattern can match after a customer of some length, the matcher accepts that length |
| `Pattern.SearchSound` | bot.py:59 | the customer lengths the search accepts lead to cuts the pattern admits, with no `'\n'` in the customer |
| `Pattern.SearchFirst` | bot.py:59 | the search returns the first customer length at which the rest matches |
| `Pattern.SearchComplete` | bot.py:59 | if the pattern admits cuts, the search finds cuts with a customer no longer than theirs |
| `Pattern.ParseSound` | bot.py:59-61 | a match gives groups the grammar derives whose concatenation is the clause: non-empty customer without `'\n'`, `.`, non-empty digits, a unit or none, whitespace, non-empty product, optional `[,;]` comment |
| `Pattern.ParseComplete` | bot.py:59 | every clause the grammar derives is matched, with a customer group no longer than that derivation's |
| `Pattern.ParseShortestCustomer` | bot.py:59 | no shorter customer group lets the rest of the pattern match |
| `Matcher.BestIndex` | bot.py:51 | the entry `extractOne` reports scores at least as high as every entry, and strictly higher than every earlier one |
| `Matcher.FuzzyMatch` | bot.py:50-53 | raises exactly on an empty catalog; an accepted name is a catalog entry that no other entry outscores and whose score reaches the threshold |
| `Matcher.FuzzyMatchGate` | bot.py:53 | the gate accepts exactly when some catalog entry reaches the threshold |
| `Matcher.FuzzyMatchExact` | bot.py:50-53 | a name that is itself in the catalog is accepted at the default threshold of 50 when the scorer gives identical strings 100, as an entry scoring 100; when no other entry scores 100, the name accepted is the term itself |
| `Records.Degraded` | bot.py:133-144 | the degraded record: customer and raw customer are the clause; product, unit, comment and raw product are empty; amount `?`; both unknown flags set |
| `Records.FallbackAsWritten` | bot.py:87-144 | whatever the external reply, the fallback as written returns the degraded record |
| `Records.Fallback` | bot.py:121-144 | on a parsed reply, the names, amount, unit and comment are the returned ones, the raw names equal the returned names, and each unknown flag is set exactly when its name is not in the catalog; on a failure, the degraded record |
| `Records.FallbackAsWrittenIsFailure` | bot.py:121-144 | the fallback as written gives, whatever the reply, what the intended fallback gives on a failed reply |
| `Records.FallbackAsWrittenLosesReply` | bot.py:121-127 | with a parsed reply naming a catalog customer, the fallback as written reports it unknown and the intended one does not |
| `Records.Canonical` | bot.py:72-73 | a rejected name, or an accepted entry that is empty and so not truthy, stays the raw group; an accepted non-empty entry replaces it |
| `Records.FromPattern` | bot.py:75-86 | the raw names are the customer and product groups, the amount and unit are the number and unit groups, and each unknown flag is set exactly when its gate rejected |
| `Records.ExtractFromLine` | bot.py:55-73 | extraction raises exactly when the pattern matches and a catalog is empty; an unmatched clause gets the fallback's record |
| `Records.ExtractMatchedFields` | bot.py:59-62 | on the pattern path the amount and unit are the number and unit groups of the match: a non-empty run of digits, and one of the four units or empty; the raw names are the customer and product groups; the comment is the comment group, or empty without one |
| `Records.ExtractMatchedNames` | bot.py:69-85 | on the pattern path each unknown flag is set exactly when its gate rejected; a rejected name is the raw group, unchanged; with a loaded catalog an accepted name is the gate's catalog entry |
| `Records.LoadingIsLoaded` | bot.py:31-34 | a catalog read from its file lines holds stripped, non-empty entries only |
| `Reports.AccumulateWarnings` | bot.py:188-192 | the accumulated `warn` string is the customer marker when the customer is unknown, followed by the product marker when the product is unknown |
| `Reports.StatusIgnoresCanonical` | bot.py:193-194 | the reply line depends on the raw names only, never on the canonical names that replaced them |
| `Reports.StatusLineWarnings` | bot.py:193-197 | for a unit the pattern produces, the reply's markers give back both unknown flags exactly |
| `Reports.DegradedStatus` | bot.py:193-197 | the reply for the degraded record carries both markers |
| `Reports.Row` | bot.py:149-157 | the sheet row has seven cells, each without surrounding whitespace |
| `Reports.RowOfStripped` | bot.py:149-157 | a record whose fields, author and timestamp carry no surrounding whitespace is written unchanged: timestamp, customer, product, amount, unit, comment, author |
| `Reports.RowKeepsAmount` | bot.py:153-154 | on the pattern path the amount and unit cells are the number and unit groups, unchanged by stripping |
| `Handler.HandleMessage` | bot.py:176-200 | the handler's effects and whether it raised are `Run(text, ...)` |
| `Handler.RunFromShape` | bot.py:181-200 | the effects are those of the clauses in order, up to the first clause whose extraction raises; with no exception, one effect per clause |
| `Handler.RunLogsEveryClause` | bot.py:181-197 | with both catalogs non-empty the handler never raises, and the k-th effect is the row and reply of the k-th clause's record |
| `Handler.RaisedByGate` | bot.py:51 | when the handler raises, the clause that stopped it matched the order pattern and a catalog is empty; the fallback never raises |

## Left out

- The Telegram transport is not modelled: `start`, `main`, the asynchronous plumbing of
  `handle_message` and the sending of replies (bot.py:173-211). A reply is modelled as
  the string sent.
- The author's name (bot.py:178) is a parameter. It comes from the Telegram user object.
- Google Sheets authorisation and `append_rows` (bot.py:44-46, 158-169) are left out.
  The model gives the row's contents.
  - The row at bot.py:149-157 is never used; `append_rows` sends a list with the same
    cells.
  - A failure of `append_rows` is caught and logged, so it changes nothing the model
    observes.
- The OpenAI request and its prompt (bot.py:90-120), and `json.loads` (bot.py:121), are
  an opaque reply. `Parsed(fields)` means the reply decoded to all five string fields.
  `Failed` covers every other outcome:
  - a network error;
  - malformed JSON;
  - a missing `customer` or `product` key.

  Two other outcomes of an intended fallback are not modelled. A reply that decodes
  without a `comment`, `amount_value` or `amount_unit` key would raise a `KeyError`
  while the row is built (bot.py:150-155, outside any `try`). A non-string value passes
  `str(...)` there, but its `.strip()` in `append_rows` (bot.py:159-166) raises inside
  the `try`; the error is logged (bot.py:168-169) and no row is written.
- `Records.ExtractFromLine` and the handler use the intended `Records.Fallback`. The
  program as written is the case where `replies(k)` is `Failed` for every `k`: by
  `Records.FallbackAsWrittenIsFailure`, the fallback as written gives exactly what
  `Records.Fallback` gives on `Failed`, whatever the reply.
- rapidfuzz's scoring (bot.py:51) is a parameter. It is any function from two strings
  to a score in 0..100.
- Opening the catalog files (bot.py:31-40), dotenv and logging are not modelled.
  Catalogs are sequences given as parameters.
  - `Records.LoadList` models the list comprehension of bot.py:34 on the file's lines,
    and `Records.Loaded` states what it guarantees: stripped, non-empty entries.
  - A missing file gives an empty catalog, which makes `Matcher.FuzzyMatch` raise.
- `datetime.now()` (bot.py:148) is a parameter, the clock reading for each clause.
- The record's `"type": "order"` key is the same on every path and is left implicit.
  So is the `data['type'] == 'order'` test (bot.py:147), which always holds.
- `Pattern.DigitRunLongest`: `\d` is read as the ASCII digits 0-9. Python also accepts
  other Unicode decimal digits, and those are not modelled.
- Two behaviours of the code are kept as written:
  - `fuzzy_match` on an empty catalog raises, because `extractOne` returns `None` and
    the unpacking fails. It does not return "no match".
  - The `❌ Couldn't parse` reply (bot.py:199-200) is never sent. Every extraction that
    returns gives a non-empty, truthy record.
- `Handler.HandleMessage` segments the whole message before handling the first clause.
  The source interleaves the two. Segmenting has no effects, so the effects and their
  order are the same.

## Findings

| source | as written | input that shows it | evidently intended | confidence | as-written member | corrected member |
|---|---|---|---|---|---|---|
| bot.py:121 | `json.loads` is called but `json` is never imported (bot.py:1-11), so every fallback raises `NameError`, is caught, and returns the degraded record | any clause the pattern does not match, e.g. `hello`, with a reply that decodes to fields naming a catalog customer | the decoded reply is used, with the raw names and membership flags of bot.py:123-127 | high (not executed) | `Records.FallbackAsWritten`, `Records.FallbackAsWrittenLosesReply` | `Records.Fallback` |
