/** `extract_json_ld`: the `application/ld+json` blocks of a page that decode
    as JSON, in document order. */
module StructuredData {
  import opened Results
  import opened CrawlerConfig

  /** What the loop has appended after walking `scripts`: each block `json.loads`
      accepts, in order. A block with no text (`script.string` is `None`) makes
      `json.loads` raise as well, and is dropped like any other failure. */
  function Parsed(scripts: seq<Option<string>>, loads: string -> Option<Json>): (blocks: seq<Json>)
    ensures |blocks| <= |scripts|
  {
    if |scripts| == 0 then []
    else
      var n := |scripts| - 1;
      var before := Parsed(scripts[..n], loads);
      match scripts[n]
      case None => before
      case Some(s) =>
        match loads(s)
        case None => before
        case Some(data) => before + [data]
  }

  /** `extract_json_ld(html)`, given the texts of the page's ld+json scripts. */
  method ExtractJsonLd(scripts: seq<Option<string>>, loads: string -> Option<Json>)
    returns (jsonLdList: seq<Json>)
    ensures jsonLdList == Parsed(scripts, loads)
  {
    jsonLdList := [];
    for i := 0 to |scripts|
      invariant jsonLdList == Parsed(scripts[..i], loads)
    {
      assert scripts[..i + 1][..i] == scripts[..i];
      match scripts[i]
      case None =>
      case Some(s) =>
        match loads(s)
        case None =>
        case Some(data) =>
          jsonLdList := jsonLdList + [data];
    }
    assert scripts[..|scripts|] == scripts;
  }

  /** The blocks of a page split in two come out as the blocks of the first
      part followed by those of the second: document order is kept. */
  lemma {:induction false} ParsedAppend(a: seq<Option<string>>, b: seq<Option<string>>, loads: string -> Option<Json>)
    ensures Parsed(a + b, loads) == Parsed(a, loads) + Parsed(b, loads)
  {
    if |b| > 0 {
      var n := |b| - 1;
      assert (a + b)[..|a + b| - 1] == a + b[..n];
      ParsedAppend(a, b[..n], loads);
    } else {
      assert a + b == a;
    }
  }

  /** A decoded value is in the result exactly when some block decodes to it. */
  lemma {:induction false} ParsedMembers(scripts: seq<Option<string>>, loads: string -> Option<Json>, x: Json)
    ensures x in Parsed(scripts, loads) <==>
      exists i :: 0 <= i < |scripts| && scripts[i].Some? && loads(scripts[i].value) == Some(x)
  {
    if |scripts| > 0 {
      var n := |scripts| - 1;
      ParsedMembers(scripts[..n], loads, x);
      assert forall i :: 0 <= i < n ==> scripts[..n][i] == scripts[i];
    }
  }

  /** When every block decodes, nothing is dropped: the result lines up with
      the scripts one for one. */
  lemma {:induction false} AllDecoded(scripts: seq<Option<string>>, loads: string -> Option<Json>)
    requires forall i :: 0 <= i < |scripts| ==> scripts[i].Some? && loads(scripts[i].value).Some?
    ensures |Parsed(scripts, loads)| == |scripts|
    ensures forall i :: 0 <= i < |scripts| ==> Parsed(scripts, loads)[i] == loads(scripts[i].value).value
  {
    if |scripts| > 0 {
      var n := |scripts| - 1;
      assert forall i :: 0 <= i < n ==> scripts[..n][i] == scripts[i];
      AllDecoded(scripts[..n], loads);
    }
  }
}
