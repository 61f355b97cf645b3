/** Fixed URLs and the expected-status table. */
module Constants {

  const MAIN_DOC_URL: string := "https://docs.python.org/3/"
  const PEP_DOC_URL: string := "https://peps.python.org/"

  /**
   * For each category letter (the second letter of a PEP's type
   * abbreviation, or "" when there is none) the statuses a PEP of that
   * category may show, as the tuple of the source.
   */
  const EXPECTED_STATUS: map<string, seq<string>> := map[
    "A" := ["Active", "Accepted"],
    "D" := ["Deferred"],
    "F" := ["Final"],
    "P" := ["Provisional"],
    "R" := ["Rejected"],
    "S" := ["Superseded"],
    "W" := ["Withdrawn"],
    "" := ["Draft", "Active"]
  ]

  lemma ExpectedStatusKeys()
    ensures EXPECTED_STATUS.Keys == {"A", "D", "F", "P", "R", "S", "W", ""}
  {
  }

  lemma ExpectedStatusNonEmpty()
    ensures forall letter | letter in EXPECTED_STATUS :: |EXPECTED_STATUS[letter]| > 0
  {
  }

  lemma ExpectedStatusEntries()
    ensures EXPECTED_STATUS["D"] == ["Deferred"] && "Active" !in EXPECTED_STATUS["D"]
    ensures EXPECTED_STATUS["A"] == ["Active", "Accepted"]
    ensures EXPECTED_STATUS[""] == ["Draft", "Active"]
  {
  }
}
