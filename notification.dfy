/** The pure parts of sending the request email: the record number taken
    from the permalink, the subject line, the addressing, the template name
    and the mapping of the two mailer failures to request errors. */
module Notification {
  import opened Php
  import opened Locations
  import opened Validation

  /** The display name of the action. */
  const Action := "Schedule For Use"

  const CouldNotSendMessage := "Could not send email."
  const UnexpectedErrorMessage := "An unexpected error occurred. Please try again."

  /** The template for the action under `dir`: `dir/<Action without
      whitespace>.html.twig`. */
  function TemplateName(dir: string): (r: string)
    ensures r == dir + "/" + "ScheduleForUse" + ".html.twig"
  {
    ActionWithoutWhitespace();
    dir + "/" + StripWhitespace(Action) + ".html.twig"
  }

  /** The action name with its two spaces removed. */
  lemma ActionWithoutWhitespace()
    ensures StripWhitespace(Action) == "ScheduleForUse"
  {
    var w1, w2, w3 := "Schedule", "For", "Use";
    assert Action == w1 + " " + w2 + " " + w3;
    StripWhitespaceFixes(w1);
    StripWhitespaceFixes(w2);
    StripWhitespaceFixes(w3);
    assert StripWhitespace(" ") == [];
    StripWhitespaceAppend(w1, " ");
    StripWhitespaceAppend(w1 + " ", w2);
    StripWhitespaceAppend(w1 + " " + w2, " ");
    StripWhitespaceAppend(w1 + " " + w2 + " ", w3);
  }

  // Record number: preg_replace('/^.*(b\d{7,}).*$/', '$1a', $permalink)

  /** A final line feed, before which `$` also matches. */
  predicate EndsWithNewline(s: string)
  {
    |s| > 0 && s[|s| - 1] == '\n'
  }

  /** The text the anchored pattern has to cover: all but a final line feed. */
  function Line(s: string): (r: string)
    ensures s == r + (if EndsWithNewline(s) then "\n" else "")
  {
    if EndsWithNewline(s) then s[..|s| - 1] else s
  }

  /** `b\d{7,}` can start at `p`: a `b` followed by at least seven digits. */
  predicate MatchAt(s: string, p: int)
  {
    0 <= p && p + 8 <= |s| && s[p] == 'b' && forall k :: p < k < p + 8 ==> IsDigit(s[k])
  }

  /** The end of the run of digits that starts at `i` (greedy `\d`). */
  function DigitRunEnd(s: string, i: nat): (j: nat)
    requires i <= |s|
    ensures i <= j <= |s|
    ensures forall k :: i <= k < j ==> IsDigit(s[k])
    ensures j == |s| || !IsDigit(s[j])
    decreases |s| - i
  {
    if i < |s| && IsDigit(s[i]) then DigitRunEnd(s, i + 1) else i
  }

  /** The last position before `n` where the group can start: the greedy
      `^.*` in front of it backtracks from the right. */
  function LastMatch(s: string, n: nat): (r: Option<nat>)
    requires n <= |s|
    ensures r.Some? ==> r.value < n && MatchAt(s, r.value)
    ensures r.Some? ==> forall q :: r.value < q < n ==> !MatchAt(s, q)
    ensures r.None? ==> forall q :: 0 <= q < n ==> !MatchAt(s, q)
  {
    if n == 0 then None
    else if MatchAt(s, n - 1) then Some(n - 1)
    else LastMatch(s, n - 1)
  }

  /** The record number derived from the permalink. `.` does not match a
      line feed, so the pattern matches only when the text before a final
      line feed has none; the match then becomes the group followed by `a`,
      and the final line feed, which the match does not cover, stays. With no
      match the permalink comes back unchanged. */
  function RecordNumber(permalink: string): (r: string)
    ensures '\n' in Line(permalink) ==> r == permalink
    ensures (forall q :: 0 <= q < |Line(permalink)| ==> !MatchAt(Line(permalink), q)) ==> r == permalink
  {
    var line := Line(permalink);
    if '\n' in line then permalink
    else
      match LastMatch(line, |line|)
      case None => permalink
      case Some(p) => line[p..DigitRunEnd(line, p + 1)] + "a" + (if EndsWithNewline(permalink) then "\n" else "")
  }

  /** When the permalink holds `b` and seven or more digits, the record
      number is the last such occurrence with all of its digits, followed by
      `a` (and by the final line feed, if there is one). */
  lemma RecordNumberOfLastMatch(permalink: string, p: nat)
    requires '\n' !in Line(permalink)
    requires MatchAt(Line(permalink), p)
    requires forall q :: p < q < |Line(permalink)| ==> !MatchAt(Line(permalink), q)
    ensures RecordNumber(permalink) ==
              Line(permalink)[p..DigitRunEnd(Line(permalink), p + 1)] + "a" +
              (if EndsWithNewline(permalink) then "\n" else "")
  {
  }

  /** For a permalink of one line, the record number is `b`, seven or more
      digits and `a`, or the permalink itself when it holds no such digits. */
  lemma RecordNumberShape(permalink: string)
    requires '\n' !in permalink
    ensures RecordNumber(permalink) == permalink ||
              (|RecordNumber(permalink)| >= 9 && RecordNumber(permalink)[0] == 'b' &&
               RecordNumber(permalink)[|RecordNumber(permalink)| - 1] == 'a' &&
               forall k :: 0 < k < |RecordNumber(permalink)| - 1 ==> IsDigit(RecordNumber(permalink)[k]))
  {
    assert !EndsWithNewline(permalink) by {
      if |permalink| > 0 { assert permalink[|permalink| - 1] in permalink; }
    }
    assert Line(permalink) == permalink;
    match LastMatch(permalink, |permalink|)
    case None =>
    case Some(p) =>
      var j := DigitRunEnd(permalink, p + 1);
      RecordNumberOfLastMatch(permalink, p);
      var rn := RecordNumber(permalink);
      assert rn == permalink[p..j] + "a" + "";
      forall k | 0 < k < |rn| - 1 ensures IsDigit(rn[k]) {
        assert rn[k] == permalink[p + k];
      }
  }

  /** A catalog permalink ending in a record number. */
  lemma ExampleRecordNumber()
    ensures RecordNumber("/record=b1234567") == "b1234567a"
  {
    var s := "/record=b1234567";
    assert Line(s) == s;
    assert '\n' !in s;
    assert MatchAt(s, 8);
    assert DigitRunEnd(s, 9) == |s|;
    RecordNumberOfLastMatch(s, 8);
    assert s[8..] == "b1234567";
  }

  // Subject and addressing

  /** `date('Y-m-d', strtotime($date))`: false becomes the timestamp 0. */
  function FormattedDate(date: string, strToTime: string -> Option<int>, dateYmd: int -> string): (r: string)
    ensures strToTime(date).Some? ==> r == dateYmd(strToTime(date).value)
    ensures strToTime(date).None? ==> r == dateYmd(0)
  {
    dateYmd(match strToTime(date) case None => 0 case Some(t) => t)
  }

  /** The subject: the action name, then a space and the formatted date when
      a date was submitted, then a colon, a space and the title when the query
      has one. */
  function Subject(date: Option<string>, title: Option<string>, formatted: string): (r: string)
    ensures |r| == |Action| + (if Empty(date) then 0 else 1 + |formatted|) +
                              (if Empty(title) then 0 else 2 + |title.value|)
    ensures r[..|Action|] == Action
    ensures !Empty(date) ==> r[|Action|..|Action| + 1 + |formatted|] == " " + formatted
    ensures !Empty(title) ==> r[|r| - 2 - |title.value|..] == ": " + title.value
  {
    var withDate := if Empty(date) then Action else Action + " " + formatted;
    if Empty(title) then withDate else withDate + ": " + title.value
  }

  /** The subject is the bare action name exactly when neither a date nor a
      title is given. */
  lemma SubjectBare(date: Option<string>, title: Option<string>, formatted: string)
    ensures Subject(date, title, formatted) == Action <==> Empty(date) && Empty(title)
  {
    if !Empty(date) || !Empty(title) {
      assert |Subject(date, title, formatted)| > |Action|;
    }
  }

  /** A sender or copy address `[email => name]`. */
  datatype Address = Address(email: string, name: string)

  /** The email the action hands to the mailer; the body, rendered from
      `template`, is not modelled, only the record number it receives. */
  datatype Message = Message(subject: string, from: Address, to: string, cc: Address,
                             template: string, recordNumber: string)

  /** What the mailer's `send` did: returned a true or a false value, or
      threw a `Swift_SwiftException`. */
  datatype Delivery = Sent | NotSent | Fault

  /** The requester named in the submitted fields. */
  function Requester(session: Submission): Address
  {
    Address(AsString(Get(session, Email)), AsString(Get(session, Name)))
  }

  /** The message `sendEmail` builds: the location is resolved again from the
      query with Record_Number added, which gives the same location. */
  function Compose(query: Query, session: Submission, t: Table, pregMatch: Matcher, formatted: string): (m: Message)
    requires GetLocation(query, t, pregMatch).Some?
    ensures exists i :: 0 <= i < |t| && t[i].0 == GetLocation(query, t, pregMatch).value
    ensures m.to == Stored(t, GetLocation(query, t, pregMatch).value).email
    ensures m.from == m.cc == Requester(session)
    ensures m.subject == Subject(Get(session, Date), Lookup(query, "Title"), formatted)
    ensures m.recordNumber == RecordNumber(query["Permalink"])
    ensures m.template == TemplateName("email")
  {
    var q := query["Record_Number" := RecordNumber(query["Permalink"])];
    GetLocationIgnoresOtherKeys(query, t, pregMatch, "Record_Number", RecordNumber(query["Permalink"]));
    GetLocationFirstMatch(q, t, pregMatch);
    var location := Stored(t, GetLocation(q, t, pregMatch).value);
    var from := Requester(session);
    Message(Subject(Get(session, Date), Lookup(q, "Title"), formatted), from, location.email, from,
            TemplateName("email"), q["Record_Number"])
  }

  /** `sendEmail`: the mailer's answer mapped onto the request outcome; a
      false answer and a mailer exception give two different messages. */
  function SendEmail(query: Query, session: Submission, t: Table, pregMatch: Matcher, formatted: string,
                     send: Message -> Delivery): (r: Outcome)
    requires GetLocation(query, t, pregMatch).Some?
    ensures r == Pass <==> send(Compose(query, session, t, pregMatch, formatted)) == Sent
    ensures send(Compose(query, session, t, pregMatch, formatted)) == NotSent ==> r == Fail(CouldNotSendMessage)
    ensures send(Compose(query, session, t, pregMatch, formatted)) == Fault ==> r == Fail(UnexpectedErrorMessage)
  {
    match send(Compose(query, session, t, pregMatch, formatted))
    case Sent => Pass
    case NotSent => Fail(CouldNotSendMessage)
    case Fault => Fail(UnexpectedErrorMessage)
  }

  /** Addressing: the message goes to the email of the first configured
      location that serves the request, and the requester is both the sender
      and the copy recipient. */
  lemma Addressing(query: Query, session: Submission, t: Table, pregMatch: Matcher, formatted: string)
    requires DistinctKeys(t)
    requires GetLocation(query, t, pregMatch).Some?
    ensures exists i :: 0 <= i < |t| && Compose(query, session, t, pregMatch, formatted).to == t[i].1.email &&
              Serves(pregMatch, t[i].1, query["Location"], query["Status"]) &&
              forall j :: 0 <= j < i ==> !Serves(pregMatch, t[j].1, query["Location"], query["Status"])
    ensures Compose(query, session, t, pregMatch, formatted).cc == Requester(session)
  {
    ResolvedEntry(query, t, pregMatch);
  }
}
