/** The classifier of main/source/main.py: exclusion keywords first (against title and
    content), then an ordered keyword table (against the title only), then the external
    oracle when no rule decided. */
module Classifier {
  import opened Py
  import opened Text

  const NotApplicable := "해당없음"
  const Scholarship := "장학금"
  const Employment := "취업 정보"

  /** `KEYWORD_CATEGORIES`, in the dictionary's insertion order (the order it is scanned in). */
  const KeywordCategories: seq<(string, string)> := [
    ("장학금", Scholarship),
    ("장학생", Scholarship),
    ("지원금", Scholarship),
    ("인턴", Employment),
    ("일자리", Employment),
    ("공개모집", Employment),
    ("채용", Employment),
    ("공채", Employment),
    ("현장실습", Employment)
  ]

  /** `EXCLUDE_KEYWORDS`. */
  const ExcludeKeywords: seq<string> := [
    "대출", "재입학", "진학", "조교", "수강 신청", "수강신청", "수강 지도", "수강지도", "취소", "연기", "변경"
  ]

  /** The token budget passed to `truncate_text`. */
  const OracleTokenBudget := 1000

  /** Some exclusion keyword occurs in `title + content`. */
  predicate Excluded(title: string, content: string) {
    exists i | 0 <= i < |ExcludeKeywords| :: Contains(title + content, ExcludeKeywords[i])
  }

  /** The category of the first table entry whose keyword occurs in the title. */
  function FirstMatch(table: seq<(string, string)>, title: string): Option<string> {
    if table == [] then None
    else if Contains(title, table[0].0) then Some(table[0].1)
    else FirstMatch(table[1..], title)
  }

  /** What the keyword rules decide: "해당없음" when excluded, otherwise the first matching
      table entry's category, otherwise nothing. */
  function KeywordCategory(title: string, content: string): Option<string> {
    if Excluded(title, content) then Some(NotApplicable) else FirstMatch(KeywordCategories, title)
  }

  /** `categorize_by_keywords`. */
  method CategorizeByKeywords(title: string, content: string) returns (r: Option<string>)
    ensures r == KeywordCategory(title, content)
  {
    var text := title + content;
    for i := 0 to |ExcludeKeywords|
      invariant forall j | 0 <= j < i :: !Contains(text, ExcludeKeywords[j])
    {
      if Contains(text, ExcludeKeywords[i]) {
        return Some(NotApplicable);
      }
    }
    for i := 0 to |KeywordCategories|
      invariant FirstMatch(KeywordCategories[i..], title) == FirstMatch(KeywordCategories, title)
    {
      var (keyword, category) := KeywordCategories[i];
      if Contains(title, keyword) {
        return Some(category);
      }
      assert KeywordCategories[i..][1..] == KeywordCategories[i + 1..];
    }
    return None;
  }

  // ------------------------------------------------------------ properties of the rules

  /** An exclusion keyword anywhere in the title or the content wins over every
      inclusion keyword. */
  lemma ExclusionWins(title: string, content: string, i: nat)
    requires i < |ExcludeKeywords| && Contains(title + content, ExcludeKeywords[i])
    ensures KeywordCategory(title, content) == Some(NotApplicable)
  {
  }

  /** No category is found from the table exactly when no table keyword occurs in the title. */
  lemma {:induction false} NoMatchIff(table: seq<(string, string)>, title: string)
    ensures FirstMatch(table, title) == None <==>
      forall i | 0 <= i < |table| :: !Contains(title, table[i].0)
  {
    if table != [] {
      NoMatchIff(table[1..], title);
      assert forall i | 1 <= i < |table| :: table[i] == table[1..][i - 1];
    }
  }

  /** Inclusion keywords are looked for in the title only: when neither text is excluded,
      the content makes no difference. */
  lemma ContentOnlyExcludes(title: string, content1: string, content2: string)
    requires !Excluded(title, content1) && !Excluded(title, content2)
    ensures KeywordCategory(title, content1) == KeywordCategory(title, content2)
  {
  }

  /** A keyword present only in the content yields no category: with no exclusion and no
      table keyword in the title, the rules decide nothing whatever the content holds. */
  lemma ContentKeywordIgnored(title: string, content: string)
    requires !Excluded(title, content)
    requires forall i | 0 <= i < |KeywordCategories| :: !Contains(title, KeywordCategories[i].0)
    ensures KeywordCategory(title, content) == None
  {
    NoMatchIff(KeywordCategories, title);
  }

  /** When several table keywords occur in the title, the earliest entry decides. */
  lemma {:induction false} EarliestEntryWins(table: seq<(string, string)>, title: string, i: nat)
    requires i < |table| && Contains(title, table[i].0)
    requires forall j | 0 <= j < i :: !Contains(title, table[j].0)
    ensures FirstMatch(table, title) == Some(table[i].1)
  {
    if i > 0 {
      assert forall j | 0 <= j < i - 1 :: table[1..][j] == table[j + 1];
      EarliestEntryWins(table[1..], title, i - 1);
    }
  }

  /** The category found in the table is one of the table's categories. */
  lemma {:induction false} FirstMatchFromTable(table: seq<(string, string)>, title: string)
    ensures FirstMatch(table, title).Some? ==>
      exists i | 0 <= i < |table| :: FirstMatch(table, title).value == table[i].1
  {
    if table != [] && !Contains(title, table[0].0) {
      FirstMatchFromTable(table[1..], title);
      if FirstMatch(table, title).Some? {
        var i :| 0 <= i < |table[1..]| && FirstMatch(table, title).value == table[1..][i].1;
        assert table[1..][i] == table[i + 1];
      }
    }
  }

  /** The keyword rules only ever answer "해당없음", "장학금", "취업 정보" or nothing. */
  lemma KeywordCategoryRange(title: string, content: string)
    ensures KeywordCategory(title, content) in
      {Some(NotApplicable), Some(Scholarship), Some(Employment), None}
  {
    FirstMatchFromTable(KeywordCategories, title);
  }

  // ------------------------------------------------------------ categorize_announcement

  /** The text the oracle is asked about: `truncate_text(f"{title}\n{content_text}", 1000)`. */
  function OraclePrompt(truncate: (string, int) -> string, title: string, content: string): string {
    truncate(title + "\n" + content, OracleTokenBudget)
  }

  /** The category `categorize_announcement` settles on: the rules' verdict when they reach
      one, the oracle's answer about the truncated text otherwise. */
  function CategoryOf(title: string, content: string, truncate: (string, int) -> string,
                      answer: string -> string): string {
    match KeywordCategory(title, content)
    case Some(c) => c
    case None => answer(OraclePrompt(truncate, title, content))
  }

  /** `categorize_announcement`. `truncate` and `answer` stand for `truncate_text` and
      `answer_gpt`, which are not part of this model; `prompt` is the question put to the
      oracle, `None` when it was not asked. */
  method CategorizeAnnouncement(title: string, content: string,
                                truncate: (string, int) -> string, answer: string -> string)
    returns (category: string, prompt: Option<string>)
    // the oracle is asked exactly when the rules decide nothing, and about the truncated text
    ensures prompt == (if KeywordCategory(title, content) == None
                       then Some(OraclePrompt(truncate, title, content)) else None)
    // a rule's verdict is returned unchanged; otherwise the oracle's answer, verbatim
    ensures KeywordCategory(title, content).Some? ==> category == KeywordCategory(title, content).value
    ensures KeywordCategory(title, content) == None ==> category == answer(prompt.value)
    ensures category == CategoryOf(title, content, truncate, answer)
  {
    var ruled := CategorizeByKeywords(title, content);
    KeywordCategoryRange(title, content);
    if ruled.Some? && ruled.value != "" {
      return ruled.value, None;
    }
    var combined := title + "\n" + content;
    var truncated := truncate(combined, OracleTokenBudget);
    return answer(truncated), Some(truncated);
  }
}
