# Bulk software inventory shipper — a verified model

`bulk_software_inventory.py` posts synthetic documents to Elasticsearch through
the Bulk API. Every request body is newline-delimited JSON: one action line
naming the target index, then one document line. There are two kinds of
document. Threat entries (end-of-life indicators) go to `eol-versions`.
Software entries go to `software` and also get `event.category =
"software_inventory"`. Every document gets an `@timestamp`.

`main` builds the URL `<endpoint without trailing slashes>/_bulk`. It then
posts each threat entry once, in catalog order; this is the bootstrap phase.
After that it cycles through the software catalog forever, one entry per
request, advancing a counter `i`. `print_eol_bulk` prints the threat documents
with timestamps ten seconds apart.

The model has three modules:

- `Text` (text.dfy): `rstrip` with one character, newline counting, and the
  line splitting a reader of newline-delimited JSON applies to a body.
- `Bulk` (bulk.dfy): JSON values and documents, `make_bulk_payload`, the
  action line, the request body, and the bulk URL.
- `Inventory` (inventory.dfy): the two catalogs, `main`'s send schedule as a
  method that returns the log of requests, `print_eol_bulk`, and the lemmas
  about ordering and periodicity of the schedule.

Modelling choices:

- A document is a `map<string, Value>`. The `@timestamp` value is
  `Time(seconds)`: the instant, in whole UTC seconds, whose
  `%Y-%m-%dT%H:%M:%SZ` text the script stores.
- `json.dumps` is the function parameter `dumps: Document -> string`; its
  output text is not modelled.
- The clock is a parameter. For `main` it is `clock: nat -> int`: the instant
  at which the n-th payload is built. For `print_eol_bulk` it is the single
  start instant.
- Each POST becomes one `Request(url, index, doc)` appended to the log that
  `Inventory.Ship` returns. `steps` bounds the number of steady sends.
- The action line is written with the spaces the code uses:
  `{ "index": { "_index": "software" } }`.
- The code calls `rstrip('/')`, which removes every trailing slash, not just
  one; the model does the same.

## Model

| member | source | states |
|---|---|---|
| `Text.RStrip` | bulk_software_inventory.py:83 | the result is a prefix of the input that does not end in the stripped character, and every character of the input after it is that character |
| `Text.RStripUnique` | bulk_software_inventory.py:83 | those three properties determine the result of `rstrip` uniquely |
| `Text.RStripIdempotent` | bulk_software_inventory.py:83 | stripping an already-stripped string changes nothing |
| `Bulk.MakeBulkPayload` | bulk_software_inventory.py:54-68 | threat entries target `eol-versions` and software entries `software`; the document's keys are exactly the entry's keys plus `@timestamp`, and for software entries also `event`; `@timestamp` is the supplied instant even if the entry had that key; software documents get `event = {"category": "software_inventory"}`; a threat document has `event` only if the entry had it; every other entry field is copied unchanged |
| `Bulk.EntryOfPayload` | bulk_software_inventory.py:58-67 | the payload builder only adds keys: removing `@timestamp` (and `event` for software) gives back the entry, for any entry that does not use those keys |
| `Bulk.ActionLine` | bulk_software_inventory.py:57-63 | the action line embeds the index name at a fixed offset and contains a newline only if the index name does |
| `Bulk.ActionLineInjective` | bulk_software_inventory.py:57-63 | different indexes give different action lines |
| `Bulk.PayloadText` | bulk_software_inventory.py:69 | the text `make_bulk_payload` returns has the action line as its first line, and everything after that first newline is the serialised document |
| `Bulk.RequestBody` | bulk_software_inventory.py:85 | the posted body ends with a newline, and without that newline it is the payload text `make_bulk_payload` returns |
| `Bulk.BodyIsTwoLines` | bulk_software_inventory.py:69 | if the serialised document holds no newline, the body holds exactly two newlines and splits into exactly the action line and the serialised document |
| `Bulk.BulkUrl` | bulk_software_inventory.py:83 | the URL ends in `/_bulk`; the part before it is a prefix of the endpoint that does not end in `/`, and the endpoint continues from there with slashes only |
| `Bulk.BulkUrlOfStripped` | bulk_software_inventory.py:83 | building the URL from an already-stripped endpoint gives the same URL |
| `Bulk.BulkUrlIgnoresTrailingSlashes` | bulk_software_inventory.py:83 | any number of extra trailing slashes on the endpoint give the same URL |
| `Bulk.BulkUrlExample` | bulk_software_inventory.py:83 | `https://host/` is posted to `https://host/_bulk` |
| `Inventory.CatalogFacts` | bulk_software_inventory.py:37-50 | the software catalog has six entries and the threat catalog two; no entry uses `@timestamp` or `event` |
| `Inventory.SoftwareListDistinct` | bulk_software_inventory.py:37-44 | the six software entries differ pairwise |
| `Inventory.ThreatsMatchInventory` | bulk_software_inventory.py:37-50 | every end-of-life indicator names a software and version that the software catalog contains |
| `Inventory.Send` | bulk_software_inventory.py:85-105 | one POST goes to the given URL, names `eol-versions` for a threat entry and `software` otherwise, carries the build instant as `@timestamp`, and its document gives back the entry once the added keys are removed |
| `Inventory.Ship` | bulk_software_inventory.py:81-107 | the log holds exactly `len(threat_list)` bootstrap requests, one per threat entry in catalog order, then `steps` steady requests, the k-th carrying `software_list[k mod len(software_list)]`; every request goes to the bulk URL of the configured endpoint |
| `Inventory.BootstrapBeforeSoftware` | bulk_software_inventory.py:84-107 | a request goes to `eol-versions` exactly when it is among the first `len(threat_list)`, and to `software` exactly when it comes later; all go to one URL |
| `Inventory.BootstrapCarriesThreats` | bulk_software_inventory.py:84-93 | the j-th bootstrap request's document is threat entry j plus the added timestamp |
| `Inventory.SteadyCarriesSoftware` | bulk_software_inventory.py:95-107 | the k-th steady request's document is software entry k mod `len(software_list)` plus the added keys |
| `Inventory.SteadyIsPeriodic` | bulk_software_inventory.py:97-107 | steady sends k and k + `len(software_list)` carry the same entry |
| `Inventory.EachEntryInEveryPeriod` | bulk_software_inventory.py:95-107 | every window of `len(software_list)` consecutive steady sends carries every software entry |
| `Inventory.NoEntryTwiceInPeriod` | bulk_software_inventory.py:95-107 | with pairwise distinct entries, no entry is carried twice within such a window |
| `Inventory.ScriptSchedule` | bulk_software_inventory.py:37-107 | with the script's own catalogs, the first two requests post the two indicators to `eol-versions`, and request 2 + k posts `software_list[k mod 6]` to `software` |
| `Inventory.ScriptOncePerWindow` | bulk_software_inventory.py:37-107 | with the script's own catalogs, no two of any six consecutive steady requests carry the same software entry |
| `Inventory.EolBulk` | bulk_software_inventory.py:71-79 | the i-th printed document is threat entry i with `@timestamp` equal to the start instant plus 10·i seconds, the same document the payload builder makes for that instant; the timestamps strictly increase in catalog order |

## Left out

- `get_credentials` (lines 18-22): reading the CSV file is I/O. The username and password play no part in what is modelled.
- `parse_args` and the module-level setup (lines 25-34): command-line parsing and process configuration. The endpoint is a parameter of `Inventory.Ship`.
- `requests.post`, the `Content-Type` header, basic authentication, the response status and `response.text[:200]` (lines 52, 87-93, 100-106): network I/O and logging. Each POST is modelled as one entry appended to the returned request log. A transport error that would end the process is not modelled.
- `datetime.now` and `strftime` (lines 55, 73, 75): the clock and date formatting. Instants are integer seconds supplied by the caller.
- The text produced by `json.dumps` (lines 69, 79): it comes from a library. The serialiser is a function parameter, and the body lemma assumes only that its output holds no newline. A document is a map, so the insertion order of its keys, which `json.dumps` follows, is not modelled.
- `time.sleep(30)` and the endless `while True` (lines 96, 108): the model runs a bounded prefix of `steps` steady sends and does not model elapsed time.
- All `print` output, including the console text of `print_eol_bulk`. `Inventory.EolBulk` returns the documents it prints, whose action line is always that of `eol-versions`.
- `Inventory.Ship`: requires a non-empty software catalog. With an empty one the script raises a division error at `i % len(software_list)`, and that error path is not modelled.
- The endpoint-discovery variant of the script, which finds the endpoint through the cloud control-plane API, is not part of this model.
