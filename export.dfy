/**
 * The spreadsheet export: title-casing the tag (`capitalizeWords`), formatting each
 * stored job as a worksheet row, and the `forEach` that adds one row per job.
 */
module Export {
  import opened Wrappers
  import opened JsText

  /** `c.toUpperCase()` on ASCII: `a`..`z` become `A`..`Z`, everything else is kept. */
  function UpperAscii(c: char): (u: char)
    ensures 'a' <= c <= 'z' ==> u as int == c as int - 32
    ensures !('a' <= c <= 'z') ==> u == c
  {
    if 'a' <= c <= 'z' then (c as int - 32) as char else c
  }

  /** `word.charAt(0).toUpperCase() + word.slice(1)`. */
  function CapitalizeWord(word: string): (r: string)
    ensures |r| == |word|
    ensures |word| > 0 ==> r[0] == UpperAscii(word[0]) && r[1..] == word[1..]
  {
    if word == "" then "" else [UpperAscii(word[0])] + word[1..]
  }

  function CapitalizeAll(words: seq<string>): (r: seq<string>)
    ensures |r| == |words|
    ensures forall i :: 0 <= i < |words| ==> r[i] == CapitalizeWord(words[i])
  {
    seq(|words|, i requires 0 <= i < |words| => CapitalizeWord(words[i]))
  }

  /** `str.split('-').map(capitalize).join(' ')`. What it computes position by position
      is stated by `CapitalizeWordsPointwise` below. */
  function CapitalizeWords(s: string): (r: string)
  {
    Join(CapitalizeAll(Split(s, "-")), " ")
  }

  /** What `capitalizeWords` puts at position `i`: a space for each hyphen, the upper-cased
      character at the start of each hyphen-separated word, and the character itself elsewhere. */
  function CapitalizedAt(s: string, i: nat): (c: char)
    requires i < |s|
  {
    if s[i] == '-' then ' '
    else if i == 0 || s[i - 1] == '-' then UpperAscii(s[i])
    else s[i]
  }

  /** A hyphen-free tag is one word. */
  lemma CapitalizeWordsSingle(word: string)
    requires '-' !in word
    ensures CapitalizeWords(word) == CapitalizeWord(word)
  {
    AbsentCharRulesOut(word, "-", 0);
    assert Split(word, "-") == [word];
    assert CapitalizeAll([word]) == [CapitalizeWord(word)];
  }

  /** A hyphen-free first word is capitalised on its own, and a space replaces the hyphen after it. */
  lemma CapitalizeWordsCons(word: string, rest: string)
    requires '-' !in word
    ensures CapitalizeWords(word + "-" + rest) == CapitalizeWord(word) + " " + CapitalizeWords(rest)
  {
    FirstCharAbsentDelimits(word, "-");
    SplitCons(word, "-", rest);
    var tail := CapitalizeAll(Split(rest, "-"));
    assert CapitalizeAll([word] + Split(rest, "-")) == [CapitalizeWord(word)] + tail;
    JoinCons(CapitalizeWord(word), tail, " ");
  }

  /** The text before the first hyphen holds no hyphen. */
  lemma BeforeFirstHyphen(s: string, k: nat)
    requires IndexFrom(s, "-", 0) == Some(k)
    ensures k < |s| && s[k] == '-' && '-' !in s[..k]
    ensures s == s[..k] + "-" + s[k + 1..]
  {
    OneCharOccurs(s, '-', k);
    CutAt(s, "-", k);
    forall i | 0 <= i < k
      ensures s[..k][i] != '-'
    {
      OneCharOccurs(s, '-', i);
    }
  }

  /** On a hyphen-free word, `CapitalizeWord` agrees with `CapitalizedAt`. */
  lemma CapitalizeWordPointwise(word: string)
    requires '-' !in word
    ensures forall i :: 0 <= i < |word| ==> CapitalizeWord(word)[i] == CapitalizedAt(word, i)
  {
    forall i | 0 <= i < |word|
      ensures CapitalizeWord(word)[i] == CapitalizedAt(word, i)
    {
      if i > 0 {
        assert CapitalizeWord(word)[i] == word[1..][i - 1];
        assert word[i - 1] != '-';
      }
    }
  }

  /** The positional description carries over from `rest` to `word + "-" + rest`. */
  lemma PointwiseCons(word: string, rest: string, restOut: string)
    requires '-' !in word
    requires |restOut| == |rest|
    requires forall j :: 0 <= j < |rest| ==> restOut[j] == CapitalizedAt(rest, j)
    ensures
      var s := word + "-" + rest;
      var out := CapitalizeWord(word) + " " + restOut;
      |out| == |s| && forall i :: 0 <= i < |s| ==> out[i] == CapitalizedAt(s, i)
  {
    var s := word + "-" + rest;
    var out := CapitalizeWord(word) + " " + restOut;
    var k := |word|;
    CapitalizeWordPointwise(word);
    forall i | 0 <= i < |s|
      ensures out[i] == CapitalizedAt(s, i)
    {
      if i < k {
        assert s[i] == word[i] && out[i] == CapitalizeWord(word)[i];
        if i > 0 {
          assert s[i - 1] == word[i - 1];
        }
      } else if i > k {
        assert s[i] == rest[i - k - 1] && out[i] == restOut[i - k - 1];
        if i > k + 1 {
          assert s[i - 1] == rest[i - k - 2];
        }
      }
    }
  }

  /** `capitalizeWords` keeps the length and is described position by position by `CapitalizedAt`. */
  lemma {:induction false} CapitalizeWordsPointwise(s: string)
    ensures |CapitalizeWords(s)| == |s|
    ensures forall i :: 0 <= i < |s| ==> CapitalizeWords(s)[i] == CapitalizedAt(s, i)
    decreases |s|
  {
    match IndexFrom(s, "-", 0)
    case None =>
      forall i | 0 <= i < |s|
        ensures s[i] != '-'
      {
        OneCharOccurs(s, '-', i);
      }
      CapitalizeWordsSingle(s);
      CapitalizeWordPointwise(s);
    case Some(k) =>
      BeforeFirstHyphen(s, k);
      var word, rest := s[..k], s[k + 1..];
      CapitalizeWordsCons(word, rest);
      CapitalizeWordsPointwise(rest);
      PointwiseCons(word, rest, CapitalizeWords(rest));
  }

  /** No hyphen survives, and each hyphen becomes a space. */
  lemma CapitalizeWordsReplacesHyphens(s: string)
    ensures '-' !in CapitalizeWords(s)
    ensures |CapitalizeWords(s)| == |s|
    ensures forall i :: 0 <= i < |s| && s[i] == '-' ==> CapitalizeWords(s)[i] == ' '
  {
    CapitalizeWordsPointwise(s);
    var out := CapitalizeWords(s);
    forall i | 0 <= i < |out|
      ensures out[i] != '-'
    {
    }
  }

  /** Title-casing an already title-cased tag changes nothing. */
  lemma CapitalizeWordsIdempotent(s: string)
    ensures CapitalizeWords(CapitalizeWords(s)) == CapitalizeWords(s)
  {
    var once := CapitalizeWords(s);
    CapitalizeWordsPointwise(s);
    CapitalizeWordsPointwise(once);
    CapitalizeWordsReplacesHyphens(s);
    var twice := CapitalizeWords(once);
    forall i | 0 <= i < |once|
      ensures twice[i] == once[i]
    {
      assert once[i] != '-';
      if i > 0 {
        assert once[i - 1] != '-';
      }
    }
  }

  /** Two hyphen-free words joined by one hyphen become the two capitalised words joined by a space. */
  lemma CapitalizeTwoWords(first: string, second: string)
    requires '-' !in first && '-' !in second
    ensures CapitalizeWords(first + "-" + second) == CapitalizeWord(first) + " " + CapitalizeWord(second)
  {
    CapitalizeWordsCons(first, second);
    CapitalizeWordsSingle(second);
  }

  /** The two words of the example tag, each capitalised on its own. */
  lemma ExampleWords(first: string, second: string)
    requires first == "software" && second == "engineer"
    ensures '-' !in first && CapitalizeWord(first) == "Software"
    ensures '-' !in second && CapitalizeWord(second) == "Engineer"
  {
  }

  /** A tag such as `software-engineer` becomes `Software Engineer`. */
  lemma CapitalizeWordsExample(first: string, second: string)
    requires first == "software" && second == "engineer"
    ensures CapitalizeWords(first + "-" + second) == "Software Engineer"
  {
    ExampleWords(first, second);
    CapitalizeTwoWords(first, second);
  }

  /** A job as the store returns it to the export. `listingDate` is the text its
      `toISOString()` gives, absent when the column is null; `tag` may be null. */
  datatype StoredJob = StoredJob(
    title: string,
    companyName: string,
    workType: string,
    location: string,
    salary: string,
    benefit: Option<seq<string>>,
    listingDate: Option<string>,
    tag: Option<string>)

  /** One worksheet row, keyed by the sheet's columns. */
  datatype Row = Row(
    title: string,
    companyName: string,
    workType: string,
    location: string,
    salary: string,
    benefit: string,
    listingDate: string,
    tag: string)

  /** `capitalizeWords(null)` throws on reading `.split`. */
  datatype ExportError = TagIsNull

  const BenefitSeparator: string := ", "

  /** `job.benefit ? job.benefit.join(', ') : ''`. */
  function BenefitsCell(benefit: Option<seq<string>>): (cell: string)
    ensures benefit.None? ==> cell == ""
  {
    match benefit
    case None => ""
    case Some(items) => Join(items, BenefitSeparator)
  }

  /** The benefits cell can be split back into the benefits, when none of them contains `, `. */
  lemma BenefitsCellSplitsBack(items: seq<string>)
    requires |items| >= 1
    requires forall k :: 0 <= k < |items| ==> !Contains(items[k], BenefitSeparator)
    ensures Split(BenefitsCell(Some(items)), BenefitSeparator) == items
  {
    forall k | 0 <= k < |items|
      ensures Delimits(items[k], BenefitSeparator)
    {
      TwoCharSeparatorDelimits(items[k], BenefitSeparator);
    }
    assert AllDelimit(items, BenefitSeparator);
    SplitOfJoin(items, BenefitSeparator);
  }

  lemma DatePartFacts(iso: string)
    ensures
      var cell := Split(iso, "T")[0];
      && |cell| <= |iso| && cell == iso[..|cell|]
      && 'T' !in cell
      && (|cell| == |iso| || iso[|cell|] == 'T')
  {
    SplitHead(iso, "T");
    var k := FirstOrEnd(iso, "T");
    OneCharOccurs(iso, 'T', k);
    forall j | 0 <= j < k
      ensures iso[j] != 'T'
    {
      OneCharOccurs(iso, 'T', j);
    }
  }

  /** `job.listingDate ? job.listingDate.toISOString().split('T')[0] : ''`: the ISO text
      up to its first `T`, which is the calendar date. */
  function DateCell(listingDate: Option<string>): (cell: string)
    ensures listingDate.None? ==> cell == ""
    ensures listingDate.Some? ==>
      && |cell| <= |listingDate.value| && cell == listingDate.value[..|cell|]
      && 'T' !in cell
      && (|cell| == |listingDate.value| || listingDate.value[|cell|] == 'T')
  {
    match listingDate
    case None => ""
    case Some(iso) => DatePartFacts(iso); Split(iso, "T")[0]
  }

  /** An ISO text `date + "T" + time` gives the date part, whatever the time part holds. */
  lemma DateCellOfIso(date: string, time: string)
    requires 'T' !in date
    ensures DateCell(Some(date + "T" + time)) == date
  {
    FirstCharAbsentDelimits(date, "T");
    FirstAfterPiece(date, "T", time);
    SplitHead(date + "T" + time, "T");
    assert (date + "T" + time)[..|date|] == date;
  }

  /** `2024-09-17T00:00:00.000Z` gives `2024-09-17`. */
  lemma DateCellExample(date: string, time: string)
    requires date == "2024-09-17" && time == "00:00:00.000Z"
    ensures DateCell(Some(date + "T" + time)) == "2024-09-17"
  {
    assert 'T' !in date;
    DateCellOfIso(date, time);
  }

  /** The body of the `forEach` callback: the row added for one job. */
  function ExportRow(job: StoredJob): (r: Result<Row, ExportError>)
    ensures r.Failure? <==> job.tag.None?
    ensures r.Success? ==>
      && r.value.title == job.title
      && r.value.companyName == job.companyName
      && r.value.workType == job.workType
      && r.value.location == job.location
      && r.value.salary == job.salary
      && r.value.benefit == BenefitsCell(job.benefit)
      && r.value.listingDate == DateCell(job.listingDate)
      && r.value.tag == CapitalizeWords(job.tag.value)
  {
    match job.tag
    case None => Failure(TagIsNull)
    case Some(tag) =>
      var capTag := CapitalizeWords(tag);
      Success(Row(
        job.title, job.companyName, job.workType, job.location, job.salary,
        BenefitsCell(job.benefit), DateCell(job.listingDate), capTag))
  }

  /** `jobs.forEach(job => worksheet.addRow(...))`: adds one row per job in order, and stops
      with the sheet as it stands at the first job whose tag is null. */
  method FillSheet(jobs: seq<StoredJob>) returns (sheet: seq<Row>, failure: Option<ExportError>)
    ensures failure.None? <==> forall i :: 0 <= i < |jobs| ==> jobs[i].tag.Some?
    ensures failure.None? ==> |sheet| == |jobs|
    ensures failure.Some? ==> |sheet| < |jobs| && jobs[|sheet|].tag.None? && failure.value == TagIsNull
    ensures forall i :: 0 <= i < |sheet| ==> ExportRow(jobs[i]) == Success(sheet[i])
  {
    sheet := [];
    failure := None;
    var i := 0;
    while i < |jobs|
      invariant 0 <= i <= |jobs| && |sheet| == i
      invariant forall k :: 0 <= k < i ==> ExportRow(jobs[k]) == Success(sheet[k])
    {
      var row := ExportRow(jobs[i]);
      if row.Failure? {
        failure := Some(row.error);
        return;
      }
      sheet := sheet + [row.value];
      i := i + 1;
    }
  }

  const ExportFailureMessage: string := "An error occurred while exporting data to Excel"

  /** The export's answer: the workbook's rows (status 200), or 500 with a fixed text. */
  datatype ExportResponse = Workbook(rows: seq<Row>) | ExportFailed(message: string)

  /** The export handler from the rows the store returned: any null tag fails the whole export. */
  method HandleExport(jobs: seq<StoredJob>) returns (response: ExportResponse)
    ensures response.Workbook? <==> forall i :: 0 <= i < |jobs| ==> jobs[i].tag.Some?
    ensures response.Workbook? ==>
      && |response.rows| == |jobs|
      && forall i :: 0 <= i < |jobs| ==> ExportRow(jobs[i]) == Success(response.rows[i])
    ensures response.ExportFailed? ==> response.message == ExportFailureMessage
  {
    var sheet, failure := FillSheet(jobs);
    if failure.Some? {
      response := ExportFailed(ExportFailureMessage);
    } else {
      response := Workbook(sheet);
    }
  }
}
