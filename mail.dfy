/**
 * The reminder mail: the credential check before sending, the encoded subject,
 * the raw message handed to the Gmail API, and the send itself.
 */
module Mail {
  import opened Wrappers
  import opened Text
  import Utf8
  import Base64

  /** A JSON value of the stored credential record (numbers are whole milliseconds or counts). */
  datatype JsValue = Str(s: string) | Num(n: int) | Bool(b: bool) | Null

  /** JavaScript truthiness of a possibly absent (`undefined`) value. */
  predicate JsTruthy(v: Option<JsValue>) {
    match v
    case None => false
    case Some(Str(s)) => s != ""
    case Some(Num(n)) => n != 0
    case Some(Bool(b)) => b
    case Some(Null) => false
  }

  /** The parsed content of `token.json`: a JSON object, keys in a map. */
  type TokenRecord = map<string, JsValue>

  function Get(r: TokenRecord, key: string): Option<JsValue> {
    if key in r then Some(r[key]) else None
  }

  /**
   * `{ ...r, key: v }` as `JSON.stringify` writes it: a key whose value is
   * `undefined` is left out of the output.
   */
  function Put(r: TokenRecord, key: string, v: Option<JsValue>): (out: TokenRecord)
    ensures Get(out, key) == v
    ensures forall k :: k != key ==> Get(out, k) == Get(r, k)
  {
    if v.Some? then r[key := v.value] else r - {key}
  }

  /** The credentials of an OAuth2 client, as `setCredentials` receives them and `refreshAccessToken` returns them. */
  datatype Credentials = Credentials(
    accessToken: Option<JsValue>, refreshToken: Option<JsValue>, scope: Option<JsValue>,
    tokenType: Option<JsValue>, expiryDate: Option<JsValue>)

  /** The credentials `authorize` sets from the stored record. */
  function Stored(r: TokenRecord): Credentials {
    Credentials(Get(r, "access_token"), Get(r, "refresh_token"), Get(r, "scope"),
                Get(r, "token_type"), Get(r, "expiry_date"))
  }

  /**
   * The refresh decision: `expiry_date && Date.now() > expiry_date - 30000`, the
   * stored access token being treated as expired 30 seconds early.
   */
  predicate ShouldRefresh(r: TokenRecord, now: int) {
    "expiry_date" in r && r["expiry_date"].Num? && r["expiry_date"].n != 0 && now > r["expiry_date"].n - 30000
  }

  /** The 30-second buffer exactly: with expiry `e`, a refresh happens from `e - 29999` on. */
  lemma RefreshBoundary(r: TokenRecord, e: int)
    requires Get(r, "expiry_date") == Some(Num(e)) && e != 0
    ensures !ShouldRefresh(r, e - 30000)
    ensures ShouldRefresh(r, e - 29999)
    ensures forall now :: now > e ==> ShouldRefresh(r, now)
  {
  }

  /**
   * The record written back after a refresh: every old field kept, the new access
   * token, expiry and type written over the old ones, and `refreshAccessToken`
   * set to the new refresh token, or else to the stored one.
   */
  function Merge(r: TokenRecord, c: Credentials): (out: TokenRecord)
  {
    var withAccess := Put(r, "access_token", c.accessToken);
    var withExpiry := Put(withAccess, "expiry_date", c.expiryDate);
    var withType := Put(withExpiry, "token_type", c.tokenType);
    Put(withType, "refreshAccessToken", if JsTruthy(c.refreshToken) then c.refreshToken else Get(r, "refresh_token"))
  }

  const MergedKeys: set<string> := {"access_token", "expiry_date", "token_type", "refreshAccessToken"}

  /** What the merge writes, field by field; in particular `refresh_token` and `scope` are never touched. */
  lemma MergeFields(r: TokenRecord, c: Credentials)
    ensures Get(Merge(r, c), "access_token") == c.accessToken
    ensures Get(Merge(r, c), "expiry_date") == c.expiryDate
    ensures Get(Merge(r, c), "token_type") == c.tokenType
    ensures JsTruthy(c.refreshToken) ==> Get(Merge(r, c), "refreshAccessToken") == c.refreshToken
    ensures !JsTruthy(c.refreshToken) ==> Get(Merge(r, c), "refreshAccessToken") == Get(r, "refresh_token")
    ensures forall k :: k !in MergedKeys ==> Get(Merge(r, c), k) == Get(r, k)
  {
  }

  /**
   * A refresh token handed out by a refresh is stored under `refreshAccessToken`,
   * which is never read: the next `authorize` sets the stored `refresh_token` again.
   */
  lemma RotatedRefreshTokenUnused(r: TokenRecord, c: Credentials)
    ensures Stored(Merge(r, c)).refreshToken == Stored(r).refreshToken
    ensures Stored(Merge(r, c)).accessToken == c.accessToken
  {
    MergeFields(r, c);
  }

  const MissingFile: string := "token.json not found. Please generate it first."
  const RefreshFailed: string := "Could not refresh access token. Please re-authenticate."

  /** The `token.json` file: absent, or holding a credential record. */
  class TokenFile {
    var record: Option<TokenRecord>

    constructor(record: Option<TokenRecord>)
      ensures this.record == record
    {
      this.record := record;
    }
  }

  /**
   * `authorize`: fails when the file is missing; otherwise sets the stored
   * credentials and, when they are about to expire, refreshes them. `refreshed`
   * is what the token endpoint answers (`None` when the refresh throws): on an
   * answer the merged record is written back, on a failure nothing is written.
   */
  method Authorize(file: TokenFile, now: int, refreshed: Option<Credentials>) returns (r: Result<Credentials, string>)
    modifies file
    ensures old(file.record).None? ==> r == Err(MissingFile) && file.record == old(file.record)
    ensures old(file.record).Some? && !ShouldRefresh(old(file.record).value, now) ==>
      r == Ok(Stored(old(file.record).value)) && file.record == old(file.record)
    ensures old(file.record).Some? && ShouldRefresh(old(file.record).value, now) && refreshed.None? ==>
      r == Err(RefreshFailed) && file.record == old(file.record)
    ensures old(file.record).Some? && ShouldRefresh(old(file.record).value, now) && refreshed.Some? ==>
      r == Ok(refreshed.value) && file.record == Some(Merge(old(file.record).value, refreshed.value))
  {
    if file.record.None? {
      return Err(MissingFile);
    }
    var tokenData := file.record.value;
    var credentials := Stored(tokenData);
    if ShouldRefresh(tokenData, now) {
      if refreshed.None? {
        return Err(RefreshFailed);
      }
      credentials := refreshed.value;
      file.record := Some(Merge(tokenData, credentials));
    }
    r := Ok(credentials);
  }

  const WordStart: string := "=?UTF-8?B?"
  const WordEnd: string := "?="

  /**
   * `encodeSubject`: an encoded-word of section 2 of RFC 2047, charset UTF-8,
   * encoding "B" (section 4.1 of RFC 2047): the base64 of the subject's UTF-8 bytes.
   * Its encoded text holds only base64 characters and '=', never '?' or a space.
   */
  function EncodeSubject(subject: string): (w: string)
    ensures StartsWith(w, WordStart) && EndsWith(w, WordEnd)
    ensures forall k :: |WordStart| <= k < |w| - |WordEnd| ==> Base64.IsAlphabetChar(w[k]) || w[k] == '='
  {
    WordStart + Base64.Encode(Utf8.Encode(subject)) + WordEnd
  }

  /** What a mail reader does with a UTF-8 "B" encoded-word: decode the base64, then the UTF-8. */
  function DecodeWord(w: string): Option<string> {
    if |w| >= |WordStart| + |WordEnd| && StartsWith(w, WordStart) && EndsWith(w, WordEnd) then
      match Base64.Decode(w[|WordStart|..|w| - |WordEnd|])
      case None => None
      case Some(bytes) => Utf8.Decode(bytes)
    else None
  }

  /** A reader gets the subject back from the encoded-word. */
  lemma SubjectRoundTrip(subject: string)
    ensures DecodeWord(EncodeSubject(subject)) == Some(subject)
  {
    var b := Base64.Encode(Utf8.Encode(subject));
    var w := EncodeSubject(subject);
    assert w[|WordStart|..|w| - |WordEnd|] == b;
    Base64.DecodeEncode(Utf8.Encode(subject));
    Utf8.DecodeEncode(subject);
  }

  const ContentType: string := "Content-Type: text/html; charset=UTF-8"

  /** The text of the message: To, From, Subject and Content-Type lines, an empty line, then the HTML body. */
  function MessageText(to: string, from: string, subject: string, html: string): (t: string)
    ensures t == ("To: " + to) + "\n" + (("From: " + from) + "\n" + (("Subject: " + subject) + "\n"
                 + (ContentType + "\n" + ("" + "\n" + html))))
  {
    JoinSix("To: " + to, "From: " + from, "Subject: " + subject, ContentType, "", html, '\n');
    Join(["To: " + to, "From: " + from, "Subject: " + subject, ContentType, "", html], '\n')
  }

  /** Six lines joined: each followed by the separator, the last one alone. */
  lemma JoinSix(a: string, b: string, c: string, d: string, e: string, f: string, sep: char)
    ensures Join([a, b, c, d, e, f], sep) == a + [sep] + (b + [sep] + (c + [sep] + (d + [sep] + (e + [sep] + f))))
  {
    assert Join([f], sep) == f;
    assert [e, f][1..] == [f];
    assert Join([e, f], sep) == e + [sep] + f;
    assert [d, e, f][1..] == [e, f];
    assert Join([d, e, f], sep) == d + [sep] + (e + [sep] + f);
    assert [c, d, e, f][1..] == [d, e, f];
    assert Join([c, d, e, f], sep) == c + [sep] + (d + [sep] + (e + [sep] + f));
    assert [b, c, d, e, f][1..] == [c, d, e, f];
    assert Join([b, c, d, e, f], sep) == b + [sep] + (c + [sep] + (d + [sep] + (e + [sep] + f)));
    assert [a, b, c, d, e, f][1..] == [b, c, d, e, f];
  }

  /** When the header values hold no line break, splitting the text at line breaks gives back the header lines, the blank line, then the body's lines. */
  lemma HeaderLines(to: string, from: string, subject: string, html: string)
    requires '\n' !in to && '\n' !in from && '\n' !in subject
    ensures Split(MessageText(to, from, subject, html), '\n')
         == ["To: " + to, "From: " + from, "Subject: " + subject, ContentType, ""] + Split(html, '\n')
  {
    var l0, l1, l2 := "To: " + to, "From: " + from, "Subject: " + subject;
    assert '\n' !in l0 && '\n' !in l1 && '\n' !in l2;
    JoinSix(l0, l1, l2, ContentType, "", html, '\n');
    SplitFive(l0, l1, l2, ContentType, "", html, '\n');
  }

  /** Five separator-free lines in front of a text split off one by one. */
  lemma SplitFive(a: string, b: string, c: string, d: string, e: string, rest: string, sep: char)
    requires sep !in a && sep !in b && sep !in c && sep !in d && sep !in e
    ensures Split(a + [sep] + (b + [sep] + (c + [sep] + (d + [sep] + (e + [sep] + rest)))), sep)
         == [a, b, c, d, e] + Split(rest, sep)
  {
    var r4 := e + [sep] + rest;
    var r3 := d + [sep] + r4;
    var r2 := c + [sep] + r3;
    var r1 := b + [sep] + r2;
    SplitAtSep(e, rest, sep);
    SplitAtSep(d, r4, sep);
    SplitAtSep(c, r3, sep);
    SplitAtSep(b, r2, sep);
    SplitAtSep(a, r1, sep);
    assert [a] + ([b] + ([c] + ([d] + ([e] + Split(rest, sep))))) == [a, b, c, d, e] + Split(rest, sep);
  }

  /**
   * `createRawEmail`: the UTF-8 bytes of the message text in base64, moved to the
   * URL-safe alphabet with the padding stripped. The result holds only URL-safe
   * characters, and a receiver that re-pads and decodes it gets the bytes back.
   */
  function CreateRawEmail(to: string, from: string, subject: string, html: string): (raw: string)
    ensures forall k :: 0 <= k < |raw| ==> Base64.IsUrlChar(raw[k])
    ensures Base64.Decode(Base64.FromUrl(raw)) == Some(Utf8.Encode(MessageText(to, from, subject, html)))
  {
    var bytes := Utf8.Encode(MessageText(to, from, subject, html));
    Base64.UrlRoundTrip(bytes);
    Base64.ToUrl(Base64.Encode(bytes))
  }

  const Sender: string := "WhyNot100 <noreply@whynot100.com>"
  const SubjectPrefix: string := "תזכורת ללמוד ל"

  const HtmlHead: string :=
    "\n      \U{FEFF}<div dir=\"rtl\" style=\"font-family: Arial, sans-serif; font-size: 16px; color: #000;\">\n        <h3>שלום "
  const HtmlMiddle: string := ",</h3>\n        <p>רק תזכורת קטנה: הגיע הזמן לשבת ללמוד לקורס <strong>"
  const HtmlTail: string := "</strong>.</p>\n        <p>בהצלחה!<br/>צוות למהלא100</p>\n      </div>\n    "

  /** The reminder body: a right-to-left block, starting with a byte order mark, that greets the student and names the course. */
  function ReminderHtml(studentName: string, subjectName: string): string {
    HtmlHead + studentName + HtmlMiddle + subjectName + HtmlTail
  }

  /** The body greets the student by name and names the course. */
  lemma ReminderHtmlNames(studentName: string, subjectName: string)
    ensures OccursAt(ReminderHtml(studentName, subjectName), studentName, |HtmlHead|)
    ensures OccursAt(ReminderHtml(studentName, subjectName), subjectName, |HtmlHead| + |studentName| + |HtmlMiddle|)
  {
    FilledTemplate(HtmlHead, studentName, HtmlMiddle, subjectName, HtmlTail);
  }

  /** A two-hole template: each filling sits right after the text before it. */
  lemma FilledTemplate(head: string, first: string, middle: string, second: string, tail: string)
    ensures OccursAt(head + first + middle + second + tail, first, |head|)
    ensures OccursAt(head + first + middle + second + tail, second, |head| + |first| + |middle|)
  {
    var h := head + first + middle + second + tail;
    assert h[|head|..|head| + |first|] == first;
    assert h[|head| + |first| + |middle|..|head| + |first| + |middle| + |second|] == second;
  }

  /** The message `sendReminderEmail` hands to the Gmail API. */
  function ReminderRaw(to: string, studentName: string, subjectName: string): string {
    CreateRawEmail(to, Sender, EncodeSubject(SubjectPrefix + subjectName), ReminderHtml(studentName, subjectName))
  }

  /** A receiver reads the reminder's subject as the prefix followed by the course name. */
  lemma ReminderSubjectReads(subjectName: string)
    ensures DecodeWord(EncodeSubject(SubjectPrefix + subjectName)) == Some(SubjectPrefix + subjectName)
  {
    SubjectRoundTrip(SubjectPrefix + subjectName);
  }

  /**
   * `sendReminderEmail`: authorize, build the message, send it. `sendError` is
   * the error the API call rejects with, if any. Every error is passed on to the
   * caller unchanged; on success the sent message is returned.
   */
  method SendReminderEmail(file: TokenFile, now: int, refreshed: Option<Credentials>, sendError: Option<string>,
                           to: string, studentName: string, subjectName: string)
    returns (r: Result<string, string>)
    modifies file
    ensures old(file.record).None? ==> r == Err(MissingFile)
    ensures old(file.record).Some? && ShouldRefresh(old(file.record).value, now) && refreshed.None? ==>
      r == Err(RefreshFailed)
    ensures old(file.record).Some? && (!ShouldRefresh(old(file.record).value, now) || refreshed.Some?) && sendError.Some? ==>
      r == Err(sendError.value)
    ensures old(file.record).Some? && (!ShouldRefresh(old(file.record).value, now) || refreshed.Some?) && sendError.None? ==>
      r == Ok(ReminderRaw(to, studentName, subjectName))
    ensures old(file.record).None? || !ShouldRefresh(old(file.record).value, now) || refreshed.None? ==>
      file.record == old(file.record)
    ensures old(file.record).Some? && ShouldRefresh(old(file.record).value, now) && refreshed.Some? ==>
      file.record == Some(Merge(old(file.record).value, refreshed.value))
  {
    var auth := Authorize(file, now, refreshed);
    if auth.Err? {
      return Err(auth.error);
    }
    var raw := ReminderRaw(to, studentName, subjectName);
    if sendError.Some? {
      return Err(sendError.value);
    }
    r := Ok(raw);
  }
}
