/**
 * The page step of the crawler: `check_no_results` and
 * `fetch_and_process_page` of `utils/scraper_utils.py`.
 *
 * The browser crawler is a parameter `arun` from request to result, so the
 * model says which URL and options each of the two page loads uses and what
 * the step decides from their outcomes. The filter loop over the extracted
 * records is the method `ProcessProducts`, proved against the specification
 * function `FilterProducts`; the whole step is `FetchAndProcessPage`, proved
 * against `PageStep`.
 */
module ScraperUtils {
  import opened Wrappers
  import opened Json
  import opened Text
  import opened DataUtils

  /** The marker the site renders once the listing has run out of pages. */
  const NoResultsMarker: string := "No Results Found"
  /** The flag the extraction step adds to each record. */
  const ErrorKey: string := "error"
  /** The record field that identifies a product. */
  const NameKey: string := "name"

  /**
   * One call of the crawler: the URL, the session shared by all pages, the
   * CSS selector restricting the content (if any) and whether the LLM
   * extraction strategy is attached. Both calls bypass the cache.
   */
  datatype CrawlRequest = CrawlRequest(url: string, sessionId: string, cssSelector: Option<string>, extract: bool)

  /**
   * What the crawler reports: success, the cleaned HTML, and the extracted
   * content already parsed as JSON: `None` when it is absent or the empty
   * string, `Some(records)` for the parsed list. A payload that parses to a
   * falsy value (`null`, `false`, `0`, `""`, `{}`) takes the same branch as
   * an empty list and is `Some([])`.
   */
  datatype CrawlResult = CrawlResult(success: bool, cleanedHtml: string, extractedContent: Option<seq<Record>>)

  type Crawler = CrawlRequest -> CrawlResult

  /** The two results of the page step and the seen-name set it leaves behind. */
  datatype PageStepResult = PageStepResult(products: seq<Record>, stop: bool, seenNames: set<JsonValue>)

  /** The probe load of `check_no_results`: no selector, no extraction. */
  function ProbeRequest(url: string, sessionId: string): (request: CrawlRequest)
  {
    CrawlRequest(url, sessionId, None, false)
  }

  /** The extracting load of `fetch_and_process_page`. */
  function ExtractRequest(url: string, cssSelector: string, sessionId: string): (request: CrawlRequest)
  {
    CrawlRequest(url, sessionId, Some(cssSelector), true)
  }

  /** `f"{base_url}?page={page_number}"`. */
  function PageUrl(baseUrl: string, pageNumber: int): (url: string)
    ensures |url| > |baseUrl| + 6
    ensures url[..|baseUrl|] == baseUrl
    ensures url[|baseUrl|..|baseUrl| + 6] == "?page="
    ensures ParseInt(url[|baseUrl| + 6..]) == Some(pageNumber)
    ensures IsCanonicalDecimal(url[|baseUrl| + 6..])
  {
    var url := baseUrl + "?page=" + IntToDecimal(pageNumber);
    assert url[|baseUrl| + 6..] == IntToDecimal(pageNumber);
    IntToDecimalRoundTrip(pageNumber);
    url
  }

  /**
   * `PageUrl`'s contract determines the URL: any string with the base URL,
   * `?page=` and a canonical rendering that reads back as the page number is
   * that URL.
   */
  lemma PageUrlDetermined(baseUrl: string, pageNumber: int, url: string)
    requires |url| > |baseUrl| + 6
    requires url[..|baseUrl|] == baseUrl
    requires url[|baseUrl|..|baseUrl| + 6] == "?page="
    requires ParseInt(url[|baseUrl| + 6..]) == Some(pageNumber)
    requires IsCanonicalDecimal(url[|baseUrl| + 6..])
    ensures url == PageUrl(baseUrl, pageNumber)
  {
    CanonicalDecimalRoundTrip(url[|baseUrl| + 6..]);
    assert url == url[..|baseUrl|] + url[|baseUrl|..|baseUrl| + 6] + url[|baseUrl| + 6..];
  }

  /** Different pages of one listing are loaded from different URLs. */
  lemma PageUrlInjective(baseUrl: string, n: int, m: int)
    requires PageUrl(baseUrl, n) == PageUrl(baseUrl, m)
    ensures n == m
  {
  }

  /**
   * `check_no_results`: true exactly when the probe load succeeded and its
   * cleaned HTML contains the no-results marker; a failed probe reads as
   * "results present".
   */
  function CheckNoResults(arun: Crawler, url: string, sessionId: string): (found: bool)
    ensures found <==>
      arun(ProbeRequest(url, sessionId)).success &&
      exists i: nat :: OccursAt(arun(ProbeRequest(url, sessionId)).cleanedHtml, NoResultsMarker, i)
  {
    var result := arun(ProbeRequest(url, sessionId));
    result.success && Contains(result.cleanedHtml, NoResultsMarker)
  }

  /**
   * Drops the `error` key when it holds exactly JSON `false`
   * (`product.get("error") is False`); every other key, and an `error` key
   * holding anything else, is kept unchanged.
   */
  function StripFalseError(product: Record): (stripped: Record)
    ensures forall k :: k in product && k != ErrorKey ==> k in stripped && stripped[k] == product[k]
    ensures forall k :: k in stripped ==> k in product && stripped[k] == product[k]
    ensures ErrorKey in stripped <==> ErrorKey in product && product[ErrorKey] != Bool(false)
  {
    if ErrorKey in product && product[ErrorKey] == Bool(false) then product - {ErrorKey} else product
  }

  /** The records as the loop looks at them, each after `StripFalseError`. */
  function StripAll(products: seq<Record>): (stripped: seq<Record>)
  {
    seq(|products|, i requires 0 <= i < |products| => StripFalseError(products[i]))
  }

  /** The loop keeps a (stripped) record when it is complete and its name is new. */
  predicate Accepts(product: Record, requiredKeys: seq<string>, seenNames: set<JsonValue>)
    requires NameKey in requiredKeys
  {
    IsCompleteProduct(product, requiredKeys) && !IsDuplicateProduct(product[NameKey], seenNames)
  }

  /**
   * The filter loop as a function of the records it has walked: the accepted
   * records, in order, and the seen-name set afterwards.
   */
  function FilterProducts(products: seq<Record>, requiredKeys: seq<string>, seenNames: set<JsonValue>)
    : (r: (seq<Record>, set<JsonValue>))
    requires NameKey in requiredKeys
    ensures |r.0| <= |products|
    ensures seenNames <= r.1
    decreases |products|
  {
    if products == [] then
      ([], seenNames)
    else
      var before := FilterProducts(products[..|products| - 1], requiredKeys, seenNames);
      var product := StripFalseError(products[|products| - 1]);
      if Accepts(product, requiredKeys, before.1) then
        (before.0 + [product], before.1 + {product[NameKey]})
      else
        before
  }

  // ---------------------------------------------------------------------
  // What the accepted records are, stated without the loop's running set.

  /** The names of the records in `products` that carry one. */
  ghost function NamesOf(products: seq<Record>): (names: set<JsonValue>)
  {
    set i | 0 <= i < |products| && NameKey in products[i] :: products[i][NameKey]
  }

  /** The names of the complete records among `products`, after stripping. */
  ghost function CompleteNames(products: seq<Record>, requiredKeys: seq<string>): (names: set<JsonValue>)
    requires NameKey in requiredKeys
  {
    set i | 0 <= i < |products| && IsCompleteProduct(StripFalseError(products[i]), requiredKeys)
      :: StripFalseError(products[i])[NameKey]
  }

  /**
   * Record `i` is the first complete occurrence of a name that was not seen
   * before the page.
   */
  ghost predicate FirstNewAt(products: seq<Record>, requiredKeys: seq<string>, seenNames: set<JsonValue>, i: nat)
    requires NameKey in requiredKeys && i < |products|
  {
    var product := StripFalseError(products[i]);
    && IsCompleteProduct(product, requiredKeys)
    && product[NameKey] !in seenNames
    && product[NameKey] !in CompleteNames(products[..i], requiredKeys)
  }

  /** Reference definition: the first complete occurrence of every new name, in input order. */
  ghost function FirstNewProducts(products: seq<Record>, requiredKeys: seq<string>, seenNames: set<JsonValue>)
    : (firstNew: seq<Record>)
    requires NameKey in requiredKeys
    decreases |products|
  {
    if products == [] then
      []
    else
      var last := |products| - 1;
      FirstNewProducts(products[..last], requiredKeys, seenNames)
        + (if FirstNewAt(products, requiredKeys, seenNames, last) then [StripFalseError(products[last])] else [])
  }

  /** Every record is complete. */
  ghost predicate AllComplete(products: seq<Record>, requiredKeys: seq<string>)
  {
    forall k :: 0 <= k < |products| ==> IsCompleteProduct(products[k], requiredKeys)
  }

  /** Every record has a name, and none of those names is in `seenNames`. */
  ghost predicate NoneSeen(products: seq<Record>, seenNames: set<JsonValue>)
  {
    forall k :: 0 <= k < |products| ==> NameKey in products[k] && products[k][NameKey] !in seenNames
  }

  /** Every record has a name, and no two records share one. */
  ghost predicate DistinctNames(products: seq<Record>)
  {
    forall k, l :: 0 <= k < l < |products| ==>
      NameKey in products[k] && NameKey in products[l] && products[k][NameKey] != products[l][NameKey]
  }

  /** `sub` is `full` with some elements left out, the rest in their order. */
  ghost predicate IsSubsequence(sub: seq<Record>, full: seq<Record>)
    decreases |full|
  {
    if sub == [] then true
    else if full == [] then false
    else
      (sub[|sub| - 1] == full[|full| - 1] && IsSubsequence(sub[..|sub| - 1], full[..|full| - 1]))
      || IsSubsequence(sub, full[..|full| - 1])
  }

  lemma CompleteNamesSnoc(products: seq<Record>, requiredKeys: seq<string>)
    requires NameKey in requiredKeys && products != []
    ensures var last := |products| - 1;
      var product := StripFalseError(products[last]);
      CompleteNames(products, requiredKeys)
        == CompleteNames(products[..last], requiredKeys)
           + (if IsCompleteProduct(product, requiredKeys) then {product[NameKey]} else {})
  {
  }

  lemma NamesOfSnoc(products: seq<Record>, product: Record)
    requires NameKey in product
    ensures NamesOf(products + [product]) == NamesOf(products) + {product[NameKey]}
  {
    var all := products + [product];
    assert all[|products|] == product;
    assert forall i :: 0 <= i < |products| ==> all[i] == products[i];
  }

  /**
   * The loop keeps exactly the first complete occurrence of each name that
   * was not seen before, and the seen-name set gains the names of all
   * complete records.
   */
  lemma {:induction false} FilterKeepsFirstNewProducts(products: seq<Record>, requiredKeys: seq<string>, seenNames: set<JsonValue>)
    requires NameKey in requiredKeys
    ensures FilterProducts(products, requiredKeys, seenNames).0 == FirstNewProducts(products, requiredKeys, seenNames)
    ensures FilterProducts(products, requiredKeys, seenNames).1 == seenNames + CompleteNames(products, requiredKeys)
    decreases |products|
  {
    if products != [] {
      var last := |products| - 1;
      FilterKeepsFirstNewProducts(products[..last], requiredKeys, seenNames);
      CompleteNamesSnoc(products, requiredKeys);
    }
  }

  /** The seen-name set grows by exactly the names of the accepted records. */
  lemma {:induction false} FilterSeenGrowth(products: seq<Record>, requiredKeys: seq<string>, seenNames: set<JsonValue>)
    requires NameKey in requiredKeys
    ensures var (accepted, seen) := FilterProducts(products, requiredKeys, seenNames);
      seen == seenNames + NamesOf(accepted)
    decreases |products|
  {
    if products != [] {
      var last := |products| - 1;
      var before := FilterProducts(products[..last], requiredKeys, seenNames);
      FilterSeenGrowth(products[..last], requiredKeys, seenNames);
      var product := StripFalseError(products[last]);
      if Accepts(product, requiredKeys, before.1) {
        NamesOfSnoc(before.0, product);
      }
    }
  }

  /**
   * Every accepted record is complete, its name was not seen before the
   * page, and no two accepted records share a name.
   */
  lemma {:induction false} FilterAcceptedWellFormed(products: seq<Record>, requiredKeys: seq<string>, seenNames: set<JsonValue>)
    requires NameKey in requiredKeys
    ensures var accepted := FilterProducts(products, requiredKeys, seenNames).0;
      AllComplete(accepted, requiredKeys) && NoneSeen(accepted, seenNames) && DistinctNames(accepted)
    decreases |products|
  {
    if products != [] {
      var last := |products| - 1;
      var before := FilterProducts(products[..last], requiredKeys, seenNames);
      FilterAcceptedWellFormed(products[..last], requiredKeys, seenNames);
      FilterSeenGrowth(products[..last], requiredKeys, seenNames);
      var product := StripFalseError(products[last]);
      if Accepts(product, requiredKeys, before.1) {
        var accepted := before.0 + [product];
        forall k | 0 <= k < |before.0|
          ensures accepted[k][NameKey] != product[NameKey]
        {
          assert accepted[k] == before.0[k];
          assert before.0[k][NameKey] in NamesOf(before.0);
        }
      }
    }
  }

  lemma SubsequenceExtend(sub: seq<Record>, full: seq<Record>, x: Record)
    requires IsSubsequence(sub, full)
    ensures IsSubsequence(sub, full + [x]) && IsSubsequence(sub + [x], full + [x])
  {
  }

  /** The accepted records are the stripped input records with some left out, in input order. */
  lemma {:induction false} FilterPreservesOrder(products: seq<Record>, requiredKeys: seq<string>, seenNames: set<JsonValue>)
    requires NameKey in requiredKeys
    ensures IsSubsequence(FilterProducts(products, requiredKeys, seenNames).0, StripAll(products))
    decreases |products|
  {
    var last := |products| - 1;
    if products == [] {
      assert StripAll(products) == [];
    } else {
      FilterPreservesOrder(products[..last], requiredKeys, seenNames);
      assert StripAll(products) == StripAll(products[..last]) + [StripFalseError(products[last])];
      SubsequenceExtend(FilterProducts(products[..last], requiredKeys, seenNames).0,
        StripAll(products[..last]), StripFalseError(products[last]));
    }
  }

  // ---------------------------------------------------------------------
  // The page step as a function of the crawler's outcomes.

  /** The records the extracting load yields, empty on failure or absent content. */
  function ExtractedRecords(result: CrawlResult): (records: seq<Record>)
  {
    if result.success && result.extractedContent.Some? then result.extractedContent.value else []
  }

  /**
   * `fetch_and_process_page`: stop (with no records and the set unchanged)
   * exactly when the probe found the marker; otherwise load with extraction
   * and filter, never stopping.
   */
  function PageStep(arun: Crawler, pageNumber: int, baseUrl: string, cssSelector: string, sessionId: string,
                    requiredKeys: seq<string>, seenNames: set<JsonValue>): (r: PageStepResult)
    requires NameKey in requiredKeys
    ensures var probe := arun(ProbeRequest(PageUrl(baseUrl, pageNumber), sessionId));
      r.stop <==> probe.success && exists i: nat :: OccursAt(probe.cleanedHtml, NoResultsMarker, i)
    ensures r.stop ==> r.products == [] && r.seenNames == seenNames
  {
    var url := PageUrl(baseUrl, pageNumber);
    if CheckNoResults(arun, url, sessionId) then
      PageStepResult([], true, seenNames)
    else
      var result := arun(ExtractRequest(url, cssSelector, sessionId));
      if !(result.success && result.extractedContent.Some?) then
        PageStepResult([], false, seenNames)
      else
        var extractedData := result.extractedContent.value;
        if extractedData == [] then
          PageStepResult([], false, seenNames)
        else
          var filtered := FilterProducts(extractedData, requiredKeys, seenNames);
          if filtered.0 == [] then PageStepResult([], false, filtered.1)
          else PageStepResult(filtered.0, false, filtered.1)
  }

  /**
   * A page that does not stop returns the first complete occurrence of each
   * name new to the run among the records the extracting load of that same
   * URL yields, after stripping; a failed or empty load returns nothing.
   */
  lemma PageStepKeepsFirstNewProducts(arun: Crawler, pageNumber: int, baseUrl: string, cssSelector: string,
                                      sessionId: string, requiredKeys: seq<string>, seenNames: set<JsonValue>)
    requires NameKey in requiredKeys
    ensures var r := PageStep(arun, pageNumber, baseUrl, cssSelector, sessionId, requiredKeys, seenNames);
      var extracted := ExtractedRecords(arun(ExtractRequest(PageUrl(baseUrl, pageNumber), cssSelector, sessionId)));
      !r.stop ==> r.products == FirstNewProducts(extracted, requiredKeys, seenNames)
  {
    var url := PageUrl(baseUrl, pageNumber);
    var extracted := ExtractedRecords(arun(ExtractRequest(url, cssSelector, sessionId)));
    FilterKeepsFirstNewProducts(extracted, requiredKeys, seenNames);
  }

  /**
   * Whatever the exit: the returned records are complete, new to the run,
   * pairwise distinct by name and in the order of the extracted records; the
   * seen-name set grows by exactly their names.
   */
  lemma PageStepProductsWellFormed(arun: Crawler, pageNumber: int, baseUrl: string, cssSelector: string,
                                   sessionId: string, requiredKeys: seq<string>, seenNames: set<JsonValue>)
    requires NameKey in requiredKeys
    ensures var r := PageStep(arun, pageNumber, baseUrl, cssSelector, sessionId, requiredKeys, seenNames);
      var extracted := ExtractedRecords(arun(ExtractRequest(PageUrl(baseUrl, pageNumber), cssSelector, sessionId)));
      && AllComplete(r.products, requiredKeys)
      && NoneSeen(r.products, seenNames)
      && DistinctNames(r.products)
      && IsSubsequence(r.products, StripAll(extracted))
      && r.seenNames == seenNames + NamesOf(r.products)
  {
    var url := PageUrl(baseUrl, pageNumber);
    var extracted := ExtractedRecords(arun(ExtractRequest(url, cssSelector, sessionId)));
    FilterSeenGrowth(extracted, requiredKeys, seenNames);
    FilterAcceptedWellFormed(extracted, requiredKeys, seenNames);
    FilterPreservesOrder(extracted, requiredKeys, seenNames);
    assert NamesOf([]) == {};
  }

  /**
   * The soft failures: a failed load, absent content or an empty record list
   * return no records, do not stop, and leave the seen-name set as it was.
   */
  lemma PageStepSoftFailures(arun: Crawler, pageNumber: int, baseUrl: string, cssSelector: string,
                             sessionId: string, requiredKeys: seq<string>, seenNames: set<JsonValue>)
    requires NameKey in requiredKeys
    requires !CheckNoResults(arun, PageUrl(baseUrl, pageNumber), sessionId)
    requires ExtractedRecords(arun(ExtractRequest(PageUrl(baseUrl, pageNumber), cssSelector, sessionId))) == []
    ensures PageStep(arun, pageNumber, baseUrl, cssSelector, sessionId, requiredKeys, seenNames)
      == PageStepResult([], false, seenNames)
  {
  }

  // ---------------------------------------------------------------------
  // The imperative step.

  /** The caller-owned set of product names accepted so far in the run. */
  class SeenNames {
    var names: set<JsonValue>
  }

  /**
   * The loop over the parsed records: strip a false `error` flag, skip
   * incomplete and duplicate records, and for each accepted record add its
   * name to `seenNames` and append it to the result.
   */
  method ProcessProducts(seenNames: SeenNames, extractedData: seq<Record>, requiredKeys: seq<string>)
    returns (completeProducts: seq<Record>)
    requires NameKey in requiredKeys
    modifies seenNames
    ensures (completeProducts, seenNames.names) == FilterProducts(extractedData, requiredKeys, old(seenNames.names))
    ensures seenNames.names == old(seenNames.names) + NamesOf(completeProducts)
  {
    completeProducts := [];
    for i := 0 to |extractedData|
      invariant (completeProducts, seenNames.names) == FilterProducts(extractedData[..i], requiredKeys, old(seenNames.names))
    {
      assert extractedData[..i + 1][..i] == extractedData[..i];
      var product := StripFalseError(extractedData[i]);
      if !IsCompleteProduct(product, requiredKeys) {
        continue;
      }
      if IsDuplicateProduct(product[NameKey], seenNames.names) {
        continue;
      }
      seenNames.names := seenNames.names + {product[NameKey]};
      completeProducts := completeProducts + [product];
    }
    assert extractedData[..|extractedData|] == extractedData;
    FilterSeenGrowth(extractedData, requiredKeys, old(seenNames.names));
  }

  /**
   * `fetch_and_process_page`: build the URL, probe it for the no-results
   * marker, load it with extraction, and filter the records into
   * `seenNames`.
   */
  method FetchAndProcessPage(arun: Crawler, pageNumber: int, baseUrl: string, cssSelector: string,
                             sessionId: string, requiredKeys: seq<string>, seenNames: SeenNames)
    returns (products: seq<Record>, stop: bool)
    requires NameKey in requiredKeys
    modifies seenNames
    ensures PageStepResult(products, stop, seenNames.names)
      == PageStep(arun, pageNumber, baseUrl, cssSelector, sessionId, requiredKeys, old(seenNames.names))
  {
    var url := PageUrl(baseUrl, pageNumber);
    var noResults := CheckNoResults(arun, url, sessionId);
    if noResults {
      return [], true;
    }
    var result := arun(ExtractRequest(url, cssSelector, sessionId));
    if !(result.success && result.extractedContent.Some?) {
      return [], false;
    }
    var extractedData := result.extractedContent.value;
    if extractedData == [] {
      return [], false;
    }
    var completeProducts := ProcessProducts(seenNames, extractedData, requiredKeys);
    if completeProducts == [] {
      return [], false;
    }
    return completeProducts, false;
  }
}
