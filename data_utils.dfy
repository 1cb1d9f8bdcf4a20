/**
 * The two predicates that `fetch_and_process_page` imports from
 * `utils/data_utils.py`. That file is not part of this model: the bodies
 * below are ASSUMED definitions, the simplest readings that fit the calls
 * (a presence check on the required keys, and a membership test on the set
 * of names already accepted). The completeness and duplicate properties
 * proved about the page step hold under these assumptions only.
 */
module DataUtils {
  import opened Json

  /** Assumed `is_complete_product`: every required key is a key of the record. */
  predicate IsCompleteProduct(product: Record, requiredKeys: seq<string>)
  {
    forall i :: 0 <= i < |requiredKeys| ==> requiredKeys[i] in product
  }

  /** Assumed `is_duplicate_product`: the name was accepted before. */
  predicate IsDuplicateProduct(name: JsonValue, seenNames: set<JsonValue>)
  {
    name in seenNames
  }
}
