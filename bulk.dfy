/** One bulk-API request of the inventory script: the target index and
    document built by `make_bulk_payload`, the newline-delimited body that is
    posted, and the `<endpoint>/_bulk` URL it is posted to. */
module Bulk {
  import opened Text

  /** A JSON value as the script's documents use it. `Time(seconds)` is the
      `@timestamp` value: the UTC instant, in whole seconds, whose
      `%Y-%m-%dT%H:%M:%SZ` rendering the script stores. */
  datatype Value = Str(s: string) | Time(seconds: int) | Obj(fields: map<string, Value>)

  /** A JSON object: field name to value. */
  type Document = map<string, Value>

  const ThreatIndex: string := "eol-versions"
  const SoftwareIndex: string := "software"
  const TimestampKey: string := "@timestamp"
  const EventKey: string := "event"
  const CategoryKey: string := "category"
  const SoftwareCategory: string := "software_inventory"

  /** The `event` object added to every software document. */
  const SoftwareEvent: Value := Obj(map[CategoryKey := Str(SoftwareCategory)])

  /** The target index and the document of one bulk action. */
  datatype Payload = Payload(index: string, doc: Document)

  /** `make_bulk_payload(entry, is_threat)` at instant `now`: the entry's
      fields spread into a fresh object, then `@timestamp`, and for software
      entries `event = {"category": "software_inventory"}`. Keys written after
      the spread win over the entry's own. */
  function MakeBulkPayload(entry: Document, now: int, isThreat: bool): (p: Payload)
    ensures p.index == (if isThreat then ThreatIndex else SoftwareIndex)
    ensures isThreat ==> p.doc.Keys == entry.Keys + {TimestampKey}
    ensures !isThreat ==> p.doc.Keys == entry.Keys + {TimestampKey, EventKey}
    ensures p.doc[TimestampKey] == Time(now)
    ensures !isThreat ==> p.doc[EventKey] == SoftwareEvent
    ensures isThreat ==> (EventKey in p.doc <==> EventKey in entry)
    ensures forall key :: key in entry && key != TimestampKey && (isThreat || key != EventKey) ==>
              p.doc[key] == entry[key]
  {
    if isThreat then
      Payload(ThreatIndex, entry + map[TimestampKey := Time(now)])
    else
      Payload(SoftwareIndex, entry + map[TimestampKey := Time(now), EventKey := SoftwareEvent])
  }

  /** True when the entry uses none of the keys the payload builder adds. */
  predicate FreeOfAddedKeys(entry: Document)
  {
    TimestampKey !in entry && EventKey !in entry
  }

  /** The catalog entry a document was built from: the document without the
      keys the payload builder adds for that kind of entry. */
  function EntryOf(doc: Document, isThreat: bool): Document
  {
    if isThreat then doc - {TimestampKey} else doc - {TimestampKey, EventKey}
  }

  /** The payload builder only adds: the entry is recovered from the document. */
  lemma EntryOfPayload(entry: Document, now: int, isThreat: bool)
    requires FreeOfAddedKeys(entry)
    ensures EntryOf(MakeBulkPayload(entry, now, isThreat).doc, isThreat) == entry
  {
  }

  const ActionPrefix: string := "{ \"index\": { \"_index\": \""
  const ActionSuffix: string := "\" } }"

  /** The bulk action line naming the target index, spaced as the script
      writes it: `{ "index": { "_index": "<index>" } }`. */
  function ActionLine(index: string): (line: string)
    ensures |line| == |ActionPrefix| + |index| + |ActionSuffix|
    ensures line[|ActionPrefix|..|ActionPrefix| + |index|] == index
    ensures '\n' in line <==> '\n' in index
  {
    ActionPrefix + index + ActionSuffix
  }

  /** Different indexes give different action lines. */
  lemma ActionLineInjective(a: string, b: string)
    requires ActionLine(a) == ActionLine(b)
    ensures a == b
  {
  }

  /** The text `make_bulk_payload` returns: the action line, a newline and the
      serialised document. `dumps` stands for `json.dumps`. */
  function PayloadText(p: Payload, dumps: Document -> string): (text: string)
    ensures '\n' !in p.index ==>
      var k := IndexOf(text, '\n');
      && k < |text|
      && text[..k] == ActionLine(p.index)
      && text[k + 1..] == dumps(p.doc)
  {
    var line := ActionLine(p.index);
    var text := line + "\n" + dumps(p.doc);
    assert text[|line|] == '\n';
    assert text[..|line|] == line;
    assert text[|line| + 1..] == dumps(p.doc);
    text
  }

  /** The POST body: the payload text followed by the newline that the bulk
      API requires after the last line. */
  function RequestBody(p: Payload, dumps: Document -> string): (body: string)
    ensures |body| > 0 && body[|body| - 1] == '\n'
    ensures body[..|body| - 1] == PayloadText(p, dumps)
  {
    PayloadText(p, dumps) + "\n"
  }

  /** When the serialised document holds no newline, a body built for a
      catalog entry has exactly two newlines, and a reader of newline-delimited
      JSON gets back exactly the action line and the serialised document. */
  lemma BodyIsTwoLines(entry: Document, now: int, isThreat: bool, dumps: Document -> string)
    requires '\n' !in dumps(MakeBulkPayload(entry, now, isThreat).doc)
    ensures var p := MakeBulkPayload(entry, now, isThreat);
      && Count(RequestBody(p, dumps), '\n') == 2
      && Lines(RequestBody(p, dumps)) == [ActionLine(p.index), dumps(p.doc)]
  {
    var p := MakeBulkPayload(entry, now, isThreat);
    assert '\n' !in p.index by {
      if isThreat {
        assert forall k :: 0 <= k < |ThreatIndex| ==> ThreatIndex[k] != '\n';
      } else {
        assert forall k :: 0 <= k < |SoftwareIndex| ==> SoftwareIndex[k] != '\n';
      }
    }
    assert RequestBody(p, dumps) == ActionLine(p.index) + "\n" + dumps(p.doc) + "\n";
    TwoLines(ActionLine(p.index), dumps(p.doc));
  }

  const BulkPath: string := "/_bulk"

  /** `endpoint.rstrip('/') + '/_bulk'`: the configured endpoint with every
      trailing slash removed, then the bulk path. */
  function BulkUrl(endpoint: string): (url: string)
    ensures |url| >= |BulkPath| && url[|url| - |BulkPath|..] == BulkPath
    ensures var base := url[..|url| - |BulkPath|];
      && base <= endpoint
      && (base == [] || base[|base| - 1] != '/')
      && forall k :: |base| <= k < |endpoint| ==> endpoint[k] == '/'
  {
    var url := RStrip(endpoint, '/') + BulkPath;
    assert url[..|url| - |BulkPath|] == RStrip(endpoint, '/');
    url
  }

  /** Normalising an endpoint that is already normalised changes nothing. */
  lemma BulkUrlOfStripped(endpoint: string)
    ensures BulkUrl(RStrip(endpoint, '/')) == BulkUrl(endpoint)
  {
  }

  /** Any number of trailing slashes on the configured endpoint give the same URL. */
  lemma BulkUrlIgnoresTrailingSlashes(endpoint: string, slashes: nat)
    ensures BulkUrl(endpoint + seq(slashes, _ => '/')) == BulkUrl(endpoint)
  {
    RStripAppend(endpoint, '/', seq(slashes, _ => '/'));
  }

  /** The worked case: `https://host/` is posted to `https://host/_bulk`. */
  lemma BulkUrlExample()
    ensures BulkUrl("https://host/") == "https://host/_bulk"
  {
  }
}
