/**
 * The lead query builder of tools.py: a company name becomes one search
 * query per fixed keyword, in keyword order.
 */
module Queries {
  import opened Wrappers

  /** The keyword suffixes, in the order in which the queries are issued. */
  const Keywords: seq<string> := ["IT Services", "managed IT", "technology solutions"]

  /** `generate_search_queries`: "<company> <keyword>" for each keyword. */
  function GenerateSearchQueries(company: string): (queries: seq<string>)
    ensures |queries| == |Keywords| == 3
    ensures queries == [company + " IT Services", company + " managed IT", company + " technology solutions"]
  {
    var qs := seq(|Keywords|, i requires 0 <= i < |Keywords| => company + " " + Keywords[i]);
    assert " " + Keywords[0] == " IT Services" && qs[0] == company + (" " + Keywords[0]);
    assert " " + Keywords[1] == " managed IT" && qs[1] == company + (" " + Keywords[1]);
    assert " " + Keywords[2] == " technology solutions" && qs[2] == company + (" " + Keywords[2]);
    qs
  }

  /** Recovers the company name from the query built with keyword number `k`. */
  function CompanyOfQuery(query: string, k: nat): (company: Option<string>)
    requires k < |Keywords|
    ensures company.Some? <==> |query| > |Keywords[k]| && query[|query| - |Keywords[k]| - 1..] == " " + Keywords[k]
    ensures company.Some? ==> query == company.value + " " + Keywords[k]
  {
    var suffix := " " + Keywords[k];
    if |query| >= |suffix| && query[|query| - |suffix|..] == suffix then
      Some(query[..|query| - |suffix|])
    else
      None
  }

  /** Every query names the company it was built for, and that name can be read back. */
  lemma QueryRoundTrip(company: string, k: nat)
    requires k < |Keywords|
    ensures CompanyOfQuery(GenerateSearchQueries(company)[k], k) == Some(company)
  {
    var q := GenerateSearchQueries(company)[k];
    assert q == company + (" " + Keywords[k]);
  }

  /** Different company names never share a query list. */
  lemma QueriesInjective(a: string, b: string)
    requires GenerateSearchQueries(a) == GenerateSearchQueries(b)
    ensures a == b
  {
    QueryRoundTrip(a, 0);
    QueryRoundTrip(b, 0);
  }

  /** The three queries of one company are pairwise different. */
  lemma QueriesDistinct(company: string, i: nat, j: nat)
    requires i < j < |Keywords|
    ensures GenerateSearchQueries(company)[i] != GenerateSearchQueries(company)[j]
  {
    var qs := GenerateSearchQueries(company);
    assert |qs[i]| != |qs[j]|;
  }
}
