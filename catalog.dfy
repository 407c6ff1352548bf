/** Datasets of the CMS provider-data catalogue and the relevance filter
    `step6_filter_hospital_datasets`. */
module Catalog {
  import opened Wrappers
  import opened Text
  import Seqs

  /** One catalogue entry.  `None` in `title`, `description`, `theme` or
      `keyword` stands for a key the entry does not carry; `modified` is
      `None` when the entry has no modification stamp. */
  datatype Dataset = Dataset(
    identifier: string,
    title: Option<string>,
    description: Option<string>,
    theme: Option<seq<string>>,
    keyword: Option<seq<string>>,
    modified: Option<string>)

  /** The configured theme filter, `THEME_FILTER`, already in lower case. */
  const ThemeFilter: string := "hospitals"

  /** The word the title and description are searched for as well. */
  const HospitalWord: string := "hospital"

  /** `any(pat in str(t).lower() for t in entries)`. */
  predicate AnyContains(pat: string, entries: seq<string>)
    ensures AnyContains(pat, entries) ==> entries != []
  {
    exists t :: t in entries && IsSubstring(pat, Lower(t))
  }

  /** The relevance test, with its six alternatives in the source's order. */
  predicate IsHospitalRelated(d: Dataset)
    ensures IsHospitalRelated(d) ==> d.title.Some? || d.description.Some? || d.theme.Some? || d.keyword.Some?
  {
    var title := Lower(d.title.GetOr(""));
    var description := Lower(d.description.GetOr(""));
    var theme := d.theme.GetOr([]);
    var keywords := d.keyword.GetOr([]);
    || IsSubstring(ThemeFilter, title)
    || IsSubstring(ThemeFilter, description)
    || AnyContains(ThemeFilter, theme)
    || AnyContains(ThemeFilter, keywords)
    || IsSubstring(HospitalWord, title)
    || IsSubstring(HospitalWord, description)
  }

  /** The catalogue entries the pipeline keeps, in catalogue order. */
  function HospitalDatasets(all: seq<Dataset>): seq<Dataset> {
    Seqs.Filter(IsHospitalRelated, all)
  }

  /** `"hospitals"` in the title or description implies `"hospital"` there, so
      the test amounts to: "hospital" in the title or description, or
      "hospitals" in some theme or keyword (all case-insensitively). */
  lemma HospitalRelatedSimplified(d: Dataset)
    ensures IsHospitalRelated(d) <==>
      || IsSubstring(HospitalWord, Lower(d.title.GetOr("")))
      || IsSubstring(HospitalWord, Lower(d.description.GetOr("")))
      || AnyContains(ThemeFilter, d.theme.GetOr([]))
      || AnyContains(ThemeFilter, d.keyword.GetOr([]))
  {
    assert ThemeFilter == HospitalWord + "s";
    if IsSubstring(ThemeFilter, Lower(d.title.GetOr(""))) {
      PrefixIsSubstring(HospitalWord, "s", Lower(d.title.GetOr("")));
    }
    if IsSubstring(ThemeFilter, Lower(d.description.GetOr(""))) {
      PrefixIsSubstring(HospitalWord, "s", Lower(d.description.GetOr("")));
    }
  }

  /** An entry with no title, description, theme or keyword (or only empty
      ones) is never kept. */
  lemma BareDatasetExcluded(d: Dataset)
    requires d.title.GetOr("") == "" && d.description.GetOr("") == ""
    requires d.theme.GetOr([]) == [] && d.keyword.GetOr([]) == []
    ensures !IsHospitalRelated(d)
  {
  }

  /** `step6_filter_hospital_datasets`: exactly the related entries, in order. */
  method FilterHospitalDatasets(allDatasets: seq<Dataset>) returns (hospitalDatasets: seq<Dataset>)
    ensures hospitalDatasets == HospitalDatasets(allDatasets)
    ensures forall d :: d in hospitalDatasets <==> d in allDatasets && IsHospitalRelated(d)
    ensures Seqs.IsSubsequence(hospitalDatasets, allDatasets)
  {
    hospitalDatasets := [];
    for i := 0 to |allDatasets|
      invariant hospitalDatasets == Seqs.Filter(IsHospitalRelated, allDatasets[..i])
    {
      assert allDatasets[..i + 1][..i] == allDatasets[..i];
      var dataset := allDatasets[i];
      if IsHospitalRelated(dataset) {
        hospitalDatasets := hospitalDatasets + [dataset];
      }
    }
    assert allDatasets[..|allDatasets|] == allDatasets;
    Seqs.FilterMembers(IsHospitalRelated, allDatasets);
    Seqs.FilterIsSubsequence(IsHospitalRelated, allDatasets);
  }
}
