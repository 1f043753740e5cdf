/** What the two appointment pages of the React front end share: the
    appointment record as the calendar API delivers it, the report-link
    scan over its description, the date dispatch, the title fallback, the
    per-line rendering vocabulary, and the end time of a booking. */
module Appointments {
  import opened Common

  /** `id`, which the calendar gives as text and the demo data as a number. */
  datatype AppointmentId = Num(n: int) | Str(s: string)

  /** `start`: a plain string, or an object with `dateTime` and/or `date`. */
  datatype DateField = NoDate | DateText(text: string) | DateObject(dateTime: Option<string>, date: Option<string>)

  datatype Appointment = Appointment(
    id: Option<AppointmentId>,
    summary: Option<string>,
    start: DateField,
    description: Option<string>,
    docUrl: Option<string>)

  /** Outcome of `getAppointments()`: the data it resolved with (possibly
      `null`), or a rejection. */
  datatype Fetch = Fetched(data: Option<seq<Appointment>>) | FetchFailed

  /** What one description line becomes: shown as it is, a report link
      (target and visible text), the report line's own text, or nothing. */
  datatype LineView = Verbatim(line: string) | ReportLink(href: string, text: string) | ReportText(text: string) | Dropped

  /** A card on either page: its number, title, time and lines; the
      landing page never offers deletion. */
  datatype Card = Card(number: nat, title: string, when: string, canDelete: bool, lines: seq<LineView>)

  // ---------------------------------------------------------------------
  // The report link inside a description
  // ---------------------------------------------------------------------

  const DocPrefix: string := "https://docs.google.com/document/d/"

  /** `[^\s\)]`: neither white space nor a closing parenthesis. */
  predicate UrlChar(c: char) {
    !IsJsWhitespace(c) && c != ')'
  }

  /** The longest run of URL characters at the start of `s` (the greedy `+`). */
  function UrlRun(s: string): (r: string)
    ensures StartsWith(s, r)
    ensures forall k :: 0 <= k < |r| ==> UrlChar(r[k])
    ensures |r| < |s| ==> !UrlChar(s[|r|])
    decreases |s|
  {
    if s != [] && UrlChar(s[0]) then [s[0]] + UrlRun(s[1..]) else []
  }

  /** The pattern matches at `i`: the prefix, then at least one URL character. */
  predicate MatchesAt(s: string, i: nat) {
    OccursAt(s, DocPrefix, i) && i + |DocPrefix| < |s| && UrlChar(s[i + |DocPrefix|])
  }

  /** The leftmost position at or after `from` where the pattern matches. */
  function FirstMatch(s: string, from: nat): (r: Option<nat>)
    requires from <= |s|
    ensures r.Some? ==> from <= r.value && MatchesAt(s, r.value)
    ensures r.Some? ==> forall k: nat :: from <= k < r.value ==> !MatchesAt(s, k)
    ensures r.None? ==> forall k: nat :: from <= k ==> !MatchesAt(s, k)
    decreases |s| - from
  {
    if MatchesAt(s, from) then Some(from)
    else if from == |s| then None
    else FirstMatch(s, from + 1)
  }

  /** `extractDocUrl`: `null` for a missing or empty description, otherwise
      the leftmost, longest match of the report-link pattern, if any. */
  function ExtractDocUrl(description: Option<string>): (url: Option<string>)
    ensures !Truthy(description) ==> url.None?
    ensures url.Some? ==> StartsWith(url.value, DocPrefix) && |url.value| > |DocPrefix|
    ensures url.Some? ==> forall k :: |DocPrefix| <= k < |url.value| ==> UrlChar(url.value[k])
    ensures Truthy(description) && url.None? ==> forall k: nat :: !MatchesAt(description.value, k)
  {
    if !Truthy(description) then None
    else
      var s := description.value;
      match FirstMatch(s, 0)
      case None => None
      case Some(i) =>
        var run := UrlRun(s[i + |DocPrefix|..]);
        assert run != [];
        Some(DocPrefix + run)
  }

  /** The link found is taken from the description at its leftmost match,
      and stops just before the end or the first non-URL character. */
  lemma ExtractDocUrlIsLeftmostLongest(description: string)
    requires ExtractDocUrl(Some(description)).Some?
    ensures exists i: nat ::
              MatchesAt(description, i) && (forall k: nat :: k < i ==> !MatchesAt(description, k))
              && OccursAt(description, ExtractDocUrl(Some(description)).value, i)
              && var e := i + |ExtractDocUrl(Some(description)).value|;
                 e == |description| || !UrlChar(description[e])
  {
    var s := description;
    var i := FirstMatch(s, 0).value;
    var rest := s[i + |DocPrefix|..];
    var run := UrlRun(rest);
    assert ExtractDocUrl(Some(description)).value == DocPrefix + run;
    RunFollowsPrefix(s, DocPrefix, i, run);
    var e := i + |DocPrefix + run|;
    assert e < |s| ==> |run| < |rest|;
    assert MatchesAt(s, i) && (forall k: nat :: k < i ==> !MatchesAt(s, k));
    assert OccursAt(s, DocPrefix + run, i) && (e == |s| || !UrlChar(s[e]));
  }

  /** A prefix found at `i`, followed by a run taken from what comes after
      it, occurs together at `i`; the character after them is the one after
      the run. */
  lemma RunFollowsPrefix(s: string, p: string, i: nat, run: string)
    requires OccursAt(s, p, i)
    requires StartsWith(s[i + |p|..], run)
    ensures OccursAt(s, p + run, i)
    ensures i + |p + run| < |s| ==> s[i + |p + run|] == s[i + |p|..][|run|]
  {
    var rest := s[i + |p|..];
    assert s[i..i + |p + run|] == s[i..i + |p|] + rest[..|run|];
  }

  /** A run of URL characters is all of itself when what follows is not one. */
  lemma {:induction false} UrlRunOfWord(w: string, after: string)
    requires forall k :: 0 <= k < |w| ==> UrlChar(w[k])
    requires after == [] || !UrlChar(after[0])
    ensures UrlRun(w + after) == w
    decreases |w|
  {
    if w != [] {
      assert (w + after)[1..] == w[1..] + after;
      UrlRunOfWord(w[1..], after);
    } else {
      assert w + after == after;
    }
  }

  /** A link written into a description is found again: the prefix, a
      document id of URL characters, and then the end or a non-URL
      character, with no earlier occurrence of the prefix. */
  lemma WrittenLinkIsExtracted(before: string, id: string, after: string)
    requires id != [] && forall k :: 0 <= k < |id| ==> UrlChar(id[k])
    requires after == [] || !UrlChar(after[0])
    requires forall k :: 0 <= k < |before| ==> !OccursAt(before + DocPrefix, DocPrefix, k)
    ensures ExtractDocUrl(Some(before + DocPrefix + id + after)) == Some(DocPrefix + id)
  {
    var rest := id + after;
    var s := before + DocPrefix + rest;
    var j := |before|;
    assert before + DocPrefix + id + after == s;
    MatchAfterPlainText(before, rest);
    LeftmostMatch(s, j);
    assert s[j + |DocPrefix|..] == rest;
    UrlRunOfWord(id, after);
  }

  /** A match with none before it is the one the scan from the start finds. */
  lemma LeftmostMatch(s: string, j: nat)
    requires MatchesAt(s, j)
    requires forall k: nat :: k < j ==> !MatchesAt(s, k)
    ensures FirstMatch(s, 0) == Some(j)
  {
    assert j <= |s|;
  }

  /** The prefix written after text that holds no earlier occurrence of it
      is the leftmost match, when a URL character follows. */
  lemma MatchAfterPlainText(before: string, rest: string)
    requires rest != [] && UrlChar(rest[0])
    requires forall k :: 0 <= k < |before| ==> !OccursAt(before + DocPrefix, DocPrefix, k)
    ensures MatchesAt(before + DocPrefix + rest, |before|)
    ensures forall k: nat :: k < |before| ==> !MatchesAt(before + DocPrefix + rest, k)
  {
    var s := before + DocPrefix + rest;
    var j := |before|;
    assert s[j..j + |DocPrefix|] == DocPrefix;
    assert s[j + |DocPrefix|] == rest[0];
    forall k: nat | k < j
      ensures !OccursAt(s, DocPrefix, k)
    {
      assert s[..j + |DocPrefix|] == before + DocPrefix;
      assert s[k..k + |DocPrefix|] == (before + DocPrefix)[k..k + |DocPrefix|];
      assert !OccursAt(before + DocPrefix, DocPrefix, k);
    }
  }

  // ---------------------------------------------------------------------
  // Dates, titles, booking times
  // ---------------------------------------------------------------------

  const InvalidDate: string := "Invalid Date"

  /** The text `formatDate` hands to `new Date`: a non-empty string as it
      is, else `dateTime`, else `date`; nothing for anything else. */
  function DateSource(d: DateField): (r: Option<string>)
    ensures r.Some? ==> r.value != []
    ensures d.NoDate? ==> r.None?
    ensures d.DateText? ==> r == (if d.text == [] then None else Some(d.text))
    ensures d.DateObject? && Truthy(d.dateTime) ==> r == d.dateTime
    ensures d.DateObject? && !Truthy(d.dateTime) ==> r == (if Truthy(d.date) then d.date else None)
  {
    match d
    case NoDate => None
    case DateText(t) => if t == [] then None else Some(t)
    case DateObject(dt, dd) => if Truthy(dt) then dt else if Truthy(dd) then dd else None
  }

  /** `formatDate`, with the date parser (`None` for a date that is not a
      number) and the locale formatter as parameters. */
  function FormatDate(d: DateField, parse: string -> Option<int>, show: int -> string): (r: string)
    ensures DateSource(d).None? ==> r == InvalidDate
  {
    match DateSource(d)
    case None => InvalidDate
    case Some(s) =>
      match parse(s)
      case None => InvalidDate
      case Some(t) => show(t)
  }

  /** `dateTime` takes precedence: an object carrying it shows exactly what
      the bare string would, whatever its `date`. */
  lemma DateTimeTakesPrecedence(dt: string, dd: Option<string>, parse: string -> Option<int>, show: int -> string)
    requires dt != []
    ensures FormatDate(DateObject(Some(dt), dd), parse, show) == FormatDate(DateText(dt), parse, show)
  {
  }

  /** An object with neither field, or only empty ones, is an invalid date
      without consulting the parser. */
  lemma EmptyDateObjectIsInvalid(dt: Option<string>, dd: Option<string>, parse: string -> Option<int>, show: int -> string)
    requires !Truthy(dt) && !Truthy(dd)
    ensures FormatDate(DateObject(dt, dd), parse, show) == InvalidDate
  {
  }

  const Untitled: string := "Untitled Appointment"

  /** `appointment.summary || "Untitled Appointment"` */
  function Title(a: Appointment): (r: string)
    ensures r != []
    ensures Truthy(a.summary) ==> r == a.summary.value
    ensures !Truthy(a.summary) ==> r == Untitled
  {
    if Truthy(a.summary) then a.summary.value else Untitled
  }

  /** `start + timedelta(minutes=duration)`, on times counted in minutes. */
  function EndTime(start: int, duration: int): (end: int)
    ensures end - start == duration
    ensures duration > 0 ==> start < end
  {
    start + duration
  }

  // ---------------------------------------------------------------------
  // Description lines
  // ---------------------------------------------------------------------

  const ReportTag: string := "Medical Report:"

  /** Lines naming the patient or carrying notes are shown as they are. */
  predicate IsDetailLine(line: string) {
    Contains(line, "Patient:") || Contains(line, "Notes:")
  }
}

/** The appointments page: every appointment as a card, with a delete
    button, its time and the report link found in or attached to it. */
module ViewAppointments {
  import opened Common
  import opened Appointments

  /** The demo appointment shown when loading fails. */
  const Mock: Appointment := Appointment(
    Some(Num(1)),
    Some("Medical Appointment - John Doe"),
    DateText("2024-01-15T10:00:00"),
    Some("Regular checkup"),
    Some("https://docs.google.com/document/d/example"))

  /** The list after a load: `data || []`, or the demo data on failure. */
  function Loaded(f: Fetch): (r: seq<Appointment>)
    ensures f == Fetched(None) ==> r == []
    ensures f.Fetched? && f.data.Some? ==> r == f.data.value
    ensures f.FetchFailed? ==> r == [Mock]
  {
    match f
    case Fetched(data) => data.GetOr([])
    case FetchFailed => [Mock]
  }

  /** `extractDocUrl(description) || appointment.docUrl` */
  function DocUrlOf(a: Appointment): (url: Option<string>)
    ensures ExtractDocUrl(a.description).Some? ==> url == ExtractDocUrl(a.description)
    ensures ExtractDocUrl(a.description).None? ==> url == a.docUrl
  {
    Or(ExtractDocUrl(a.description), a.docUrl)
  }

  /** `appointment.id && <delete button>`: a truthy id. */
  predicate CanDelete(a: Appointment) {
    match a.id
    case None => false
    case Some(Num(n)) => n != 0
    case Some(Str(s)) => s != []
  }

  const ClipboardTag: string := "\U{1F4CB} Medical Report:"

  /** One description line: detail lines verbatim; report lines as the link,
      or, with no link, as the line without its first clipboard tag,
      trimmed; everything else dropped. */
  function ShowLine(line: string, docUrl: Option<string>): (v: LineView)
    ensures v.Verbatim? <==> IsDetailLine(line)
    ensures v.Verbatim? ==> v.line == line
    ensures v.ReportLink? <==> !IsDetailLine(line) && Contains(line, ReportTag) && Truthy(docUrl)
    ensures v.ReportLink? ==> v.href == v.text == docUrl.value
    ensures v.ReportText? ==> v.text == JsTrim(ReplaceFirst(line, ClipboardTag, ""))
    ensures v.Dropped? <==> !IsDetailLine(line) && !Contains(line, ReportTag)
  {
    if IsDetailLine(line) then Verbatim(line)
    else if Contains(line, ReportTag) then
      if Truthy(docUrl) then ReportLink(docUrl.value, docUrl.value)
      else ReportText(JsTrim(ReplaceFirst(line, ClipboardTag, "")))
    else Dropped
  }

  /** `description && description.split("\n").map(...)` */
  function Lines(description: Option<string>, docUrl: Option<string>): (r: seq<LineView>)
    ensures !Truthy(description) ==> r == []
    ensures Truthy(description) ==> |r| == |Split(description.value, '\n')|
    ensures Truthy(description) ==> forall i :: 0 <= i < |r| ==> r[i] == ShowLine(Split(description.value, '\n')[i], docUrl)
  {
    if !Truthy(description) then []
    else
      var lines := Split(description.value, '\n');
      seq(|lines|, i requires 0 <= i < |lines| => ShowLine(lines[i], docUrl))
  }

  function CardOf(a: Appointment, index: nat, parse: string -> Option<int>, show: int -> string): (c: Card)
    ensures c.number == index + 1 && c.title == Title(a)
    ensures c.canDelete <==> a.id.Some? && a.id.value != Num(0) && a.id.value != Str("")
    ensures c.when == FormatDate(a.start, parse, show)
    ensures c.lines == Lines(a.description, DocUrlOf(a))
  {
    Card(index + 1, Title(a), FormatDate(a.start, parse, show), CanDelete(a), Lines(a.description, DocUrlOf(a)))
  }

  /** The page body once loading is over: the empty state, or one card per
      appointment in order. */
  datatype Page = NoAppointments | Cards(cards: seq<Card>)

  function PageOf(list: seq<Appointment>, parse: string -> Option<int>, show: int -> string): (p: Page)
    ensures p.NoAppointments? <==> list == []
    ensures p.Cards? ==> |p.cards| == |list|
    ensures p.Cards? ==> forall i :: 0 <= i < |list| ==> p.cards[i] == CardOf(list[i], i, parse, show)
  {
    if list == [] then NoAppointments
    else Cards(seq(|list|, i requires 0 <= i < |list| => CardOf(list[i], i, parse, show)))
  }

  /** A failed load shows the single demo card, numbered 1 and deletable,
      under its own title. */
  lemma FailedLoadShowsDemoCard(parse: string -> Option<int>, show: int -> string)
    ensures PageOf(Loaded(FetchFailed), parse, show).Cards?
    ensures |PageOf(Loaded(FetchFailed), parse, show).cards| == 1
    ensures PageOf(Loaded(FetchFailed), parse, show).cards[0].title == "Medical Appointment - John Doe"
    ensures PageOf(Loaded(FetchFailed), parse, show).cards[0].canDelete
    ensures PageOf(Loaded(FetchFailed), parse, show).cards[0].number == 1
  {
    var p := PageOf([Mock], parse, show);
    assert Loaded(FetchFailed) == [Mock];
    assert p.cards[0] == CardOf(Mock, 0, parse, show);
    assert Title(Mock) == Mock.summary.value;
  }
}

/** The landing page's "Upcoming Appointments" cards: the first three
    appointments, with shortened report links. */
module LandingPage {
  import opened Common
  import opened Appointments
  import ViewAppointments

  /** `(data || []).slice(0, 3)`; a failed load leaves the initial `[]`. */
  function Upcoming(f: Fetch): (r: seq<Appointment>)
    ensures |r| <= 3
    ensures f.Fetched? && f.data.Some? ==> |r| == if |f.data.value| < 3 then |f.data.value| else 3
    ensures f.Fetched? && f.data.Some? ==> r == f.data.value[..|r|]
    ensures f.FetchFailed? || f.data.None? ==> r == []
  {
    match f
    case FetchFailed => []
    case Fetched(data) =>
      var xs := data.GetOr([]);
      if |xs| <= 3 then xs else xs[..3]
  }

  const LinkWidth: nat := 40

  /** One description line: detail lines verbatim, report lines as a
      shortened link only when a link was found, everything else dropped. */
  function ShowLine(line: string, docUrl: Option<string>): (v: LineView)
    ensures v.Verbatim? <==> IsDetailLine(line)
    ensures v.Verbatim? ==> v.line == line
    ensures v.ReportLink? <==> !IsDetailLine(line) && Contains(line, ReportTag) && Truthy(docUrl)
    ensures v.ReportLink? ==> v.href == docUrl.value && v.text == Ellipsize(docUrl.value, LinkWidth)
    ensures !v.ReportText?
  {
    if IsDetailLine(line) then Verbatim(line)
    else if Truthy(docUrl) && Contains(line, ReportTag) then
      ReportLink(docUrl.value, Ellipsize(docUrl.value, LinkWidth))
    else Dropped
  }

  function Lines(description: Option<string>): (r: seq<LineView>)
    ensures !Truthy(description) ==> r == []
    ensures Truthy(description) ==> |r| == |Split(description.value, '\n')|
    ensures Truthy(description) ==> forall i :: 0 <= i < |r| ==>
              r[i] == ShowLine(Split(description.value, '\n')[i], ExtractDocUrl(description))
  {
    if !Truthy(description) then []
    else
      var lines := Split(description.value, '\n');
      seq(|lines|, i requires 0 <= i < |lines| => ShowLine(lines[i], ExtractDocUrl(description)))
  }

  function CardOf(a: Appointment, index: nat, parse: string -> Option<int>, show: int -> string): (c: Card)
    ensures c.number == index + 1 && c.title == Title(a) && !c.canDelete
    ensures c.when == FormatDate(a.start, parse, show)
    ensures c.lines == Lines(a.description)
  {
    Card(index + 1, Title(a), FormatDate(a.start, parse, show), false, Lines(a.description))
  }

  function Cards(f: Fetch, parse: string -> Option<int>, show: int -> string): (r: seq<Card>)
    ensures |r| == |Upcoming(f)| <= 3
    ensures forall i :: 0 <= i < |r| ==> r[i] == CardOf(Upcoming(f)[i], i, parse, show)
  {
    var xs := Upcoming(f);
    seq(|xs|, i requires 0 <= i < |xs| => CardOf(xs[i], i, parse, show))
  }

  /** The two pages agree line by line: the same detail lines verbatim; a
      link here is the full page's link, shortened; whatever the full page
      drops is dropped here too. The full page may show more, since it also
      falls back to the attached `docUrl`. */
  lemma PagesAgreeOnLines(a: Appointment, line: string)
    ensures ShowLine(line, ExtractDocUrl(a.description)).Verbatim?
            <==> ViewAppointments.ShowLine(line, ViewAppointments.DocUrlOf(a)).Verbatim?
    ensures var mine := ShowLine(line, ExtractDocUrl(a.description));
            var full := ViewAppointments.ShowLine(line, ViewAppointments.DocUrlOf(a));
            mine.ReportLink? ==> full.ReportLink? && mine.href == full.href && mine.text == Ellipsize(full.text, LinkWidth)
    ensures ViewAppointments.ShowLine(line, ViewAppointments.DocUrlOf(a)).Dropped?
            ==> ShowLine(line, ExtractDocUrl(a.description)).Dropped?
  {
  }

  /** Short links keep the start of the URL: at most 40 characters of it
      and an ellipsis, or the whole URL when it fits. */
  lemma ShortLinkKeepsStart(line: string, docUrl: string)
    requires !IsDetailLine(line) && Contains(line, ReportTag) && docUrl != []
    ensures |docUrl| <= LinkWidth ==> ShowLine(line, Some(docUrl)).text == docUrl
    ensures |docUrl| > LinkWidth ==> ShowLine(line, Some(docUrl)).text == docUrl[..LinkWidth] + "..."
  {
  }
}
