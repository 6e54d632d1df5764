/**
 * The blog app's post card: a status badge colour, a reading-time estimate,
 * a summary line and the author badge.
 */
module ListBlogItem {
  import opened Wrappers
  import opened Strings
  import opened Numbers
  import opened Entities

  /** `statusColors`: the badge colour of each status. */
  function StatusColor(s: Status): (r: string)
    ensures r != ""
  {
    match s
    case PENDING => "bg-yellow-600"
    case APPROVED => "bg-green-600"
    case REJECTED => "bg-red-600"
  }

  /** Distinct statuses get distinct colours. */
  lemma StatusColorInjective(s: Status, t: Status)
    ensures StatusColor(s) == StatusColor(t) ==> s == t
  {
  }

  /** Words read per minute in the estimate. */
  const WordsPerMinute: nat := 200

  /**
   * `Math.ceil(content.split(' ').length / 200)`: the number of
   * space-separated pieces (one more than the number of spaces) per 200,
   * rounded up. Even empty content takes a minute.
   */
  function ReadMinutes(content: string): (r: nat)
    ensures r == CeilDiv(Count(content, ' ') + 1, WordsPerMinute)
    ensures r >= 1
  {
    SplitLength(content, ' ');
    CeilDiv(|Split(content, ' ')|, WordsPerMinute)
  }

  /** The reading-time label: the estimate in decimal, then " min read". */
  function ReadTime(content: string): (r: string)
    ensures |r| > |" min read"| && r[|r| - |" min read"|..] == " min read"
    ensures ParseInt(r[..|r| - |" min read"|]) == Some(ReadMinutes(content))
  {
    var m := ReadMinutes(content);
    ParseIntDecimal(m);
    var r := Decimal(m) + " min read";
    assert r[..|r| - |" min read"|] == IntString(m);
    r
  }

  /** More spaces never mean a shorter estimate. */
  lemma ReadMinutesMonotone(a: string, b: string)
    requires Count(a, ' ') <= Count(b, ' ')
    ensures ReadMinutes(a) <= ReadMinutes(b)
  {
    CeilDivMonotone(Count(a, ' ') + 1, Count(b, ' ') + 1, WordsPerMinute);
  }

  /** Up to 200 pieces read in one minute; each further 200 add a minute. */
  lemma ReadMinutesBounds(content: string)
    ensures (ReadMinutes(content) - 1) * WordsPerMinute < Count(content, ' ') + 1
    ensures Count(content, ' ') + 1 <= ReadMinutes(content) * WordsPerMinute
    ensures Count(content, ' ') < WordsPerMinute ==> ReadMinutes(content) == 1
  {
    var m := ReadMinutes(content);
    if Count(content, ' ') < WordsPerMinute {
      assert (m - 1) * WordsPerMinute < WordsPerMinute;
    }
  }

  /** The length `substring(0, 150)` keeps. */
  const SummaryLength: nat := 150

  /** `{post.excerpt || post.content.substring(0, 150)}...`. */
  function ShownSummary(excerpt: Option<string>, content: string): (r: string)
    ensures |r| >= 3 && r[|r| - 3..] == "..."
    ensures excerpt.Some? && excerpt.value != "" ==> r[..|r| - 3] == excerpt.value
    ensures excerpt.None? || excerpt.value == "" ==>
              r[..|r| - 3] <= content
              && |r| - 3 == (if |content| <= SummaryLength then |content| else SummaryLength)
  {
    var text := if excerpt.Some? && excerpt.value != "" then excerpt.value else Prefix(content, SummaryLength);
    assert (text + "...")[..|text|] == text;
    text + "..."
  }

  /** The author badge: the upper-cased first character of the name, or 'U'. */
  function AuthorInitial(name: Option<string>): (r: string)
    ensures |r| == 1
    ensures name.None? || name.value == "" ==> r == "U"
    ensures name.Some? && name.value != "" ==>
              r[0] == UpperChar(name.value[0]) && (IsLowerAscii(name.value[0]) ==> IsUpperAscii(r[0]))
  {
    if name.Some? && name.value != "" then [UpperChar(name.value[0])] else "U"
  }

  /** `post.author.name || 'Anonymous'`. */
  function AuthorDisplayName(name: Option<string>): (r: string)
    ensures r != ""
    ensures name.Some? && name.value != "" ==> r == name.value
    ensures name.None? || name.value == "" ==> r == "Anonymous"
  {
    if name.Some? && name.value != "" then name.value else "Anonymous"
  }
}
