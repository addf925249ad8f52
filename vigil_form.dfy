/**
 * The early-access form: seven text fields, live validation of the e-mail address and the phone
 * number, and a submit button that opens a prefilled Gmail compose window and moves on to the
 * confirmation page.
 */
module VigilForm {
  import opened JsRuntime

  /** The `name` attributes of the form's inputs. */
  datatype Field = FullName | Email | Address | Phone | PropertyType | InterestLevel | Comments

  /** The `formData` state record. */
  datatype FormData = FormData(
    fullName: string, email: string, address: string, phone: string,
    propertyType: string, interestLevel: string, comments: string)
  {
    /** `formData[name]`. */
    function Get(f: Field): string {
      match f
      case FullName => fullName
      case Email => email
      case Address => address
      case Phone => phone
      case PropertyType => propertyType
      case InterestLevel => interestLevel
      case Comments => comments
    }

    /** `{ ...formData, [name]: value }`. */
    function With(f: Field, value: string): FormData {
      match f
      case FullName => this.(fullName := value)
      case Email => this.(email := value)
      case Address => this.(address := value)
      case Phone => this.(phone := value)
      case PropertyType => this.(propertyType := value)
      case InterestLevel => this.(interestLevel := value)
      case Comments => this.(comments := value)
    }
  }

  /** The spread update sets the named field to the value and leaves every other field as it was. */
  lemma WithSetsOnlyThatField(d: FormData, f: Field, value: string)
    ensures d.With(f, value).Get(f) == value
    ensures forall g :: g != f ==> d.With(f, value).Get(g) == d.Get(g)
  {
  }

  /** The `errors` state record: an empty string is no error. */
  datatype Errors = Errors(email: string, phone: string)

  const InvalidEmail := "Please enter a valid email address."
  const InvalidPhone := "Enter a valid phone number for NYC or Chicago."
  const FixErrors := "Please fix the errors before proceeding."
  const ConfirmationRoute := "/confirmation"

  // ---------------------------------------------------------------------------------------------
  // The e-mail check

  /** `[^\s@]`: neither white space nor `@`. */
  predicate AddressChar(c: char) {
    !IsSpace(c) && c != '@'
  }

  predicate AddressChars(t: string) {
    forall k :: 0 <= k < |t| ==> AddressChar(t[k])
  }

  /** `s` matches `[^\s@]+@[^\s@]+\.[^\s@]+` with the `@` at `i` and the `.` at `j`. */
  predicate EmailSplit(s: string, i: int, j: int) {
    0 < i && i + 1 < j && j + 1 < |s| && s[i] == '@' && s[j] == '.'
    && AddressChars(s[..i]) && AddressChars(s[i + 1..j]) && AddressChars(s[j + 1..])
  }

  /** The language of `/^[^\s@]+@[^\s@]+\.[^\s@]+$/`. */
  predicate EmailPattern(s: string) {
    exists i, j | 0 < i < j < |s| :: EmailSplit(s, i, j)
  }

  /** The e-mail error handleChange records for a new value. */
  function EmailError(value: string): (r: string)
    ensures r == "" <==> EmailPattern(value)
    ensures r == "" || r == InvalidEmail
  {
    if EmailPattern(value) then "" else InvalidEmail
  }

  /**
   * What the pattern accepts, in plain terms: no white space, exactly one `@`, not first, and a
   * `.` after it with at least one character on either side.
   */
  predicate PlainEmail(s: string) {
    (forall k :: 0 <= k < |s| ==> !IsSpace(s[k]))
    && exists i | 0 < i < |s| ::
         s[i] == '@'
         && (forall k :: 0 <= k < |s| && s[k] == '@' ==> k == i)
         && exists j | i + 1 < j < |s| - 1 :: s[j] == '.'
  }

  lemma EmailPatternIsPlain(s: string)
    ensures EmailPattern(s) <==> PlainEmail(s)
  {
    if EmailPattern(s) {
      var i, j :| 0 < i < j < |s| && EmailSplit(s, i, j);
      forall k | 0 <= k < |s|
        ensures !IsSpace(s[k]) && (s[k] == '@' ==> k == i)
      {
        if k < i {
          assert s[..i][k] == s[k];
        } else if i < k < j {
          assert s[i + 1..j][k - i - 1] == s[k];
        } else if j < k {
          assert s[j + 1..][k - j - 1] == s[k];
        }
      }
      assert i + 1 < j < |s| - 1 && s[j] == '.';
    }
    if PlainEmail(s) {
      var i :| 0 < i < |s| && s[i] == '@' && (forall k :: 0 <= k < |s| && s[k] == '@' ==> k == i)
               && exists j | i + 1 < j < |s| - 1 :: s[j] == '.';
      var j :| i + 1 < j < |s| - 1 && s[j] == '.';
      assert EmailSplit(s, i, j);
    }
  }

  // ---------------------------------------------------------------------------------------------
  // The phone check

  /** `\d`: an ASCII digit. */
  predicate IsDigit(c: char) {
    '0' <= c <= '9'
  }

  /** `value.replace(/\D/g, "")`: the digits of `value`, in order. */
  function DigitsOnly(value: string): (r: string)
    ensures |r| <= |value|
    ensures forall k :: 0 <= k < |r| ==> IsDigit(r[k])
  {
    if value == [] then []
    else (if IsDigit(value[0]) then [value[0]] else []) + DigitsOnly(value[1..])
  }

  /** The alternatives of the phone pattern, as written (917 appears twice). */
  const AreaCodes: seq<string> := ["212", "646", "917", "718", "347", "929", "917", "312", "773", "872"]

  /** The language of `/^(212|646|917|718|347|929|917|312|773|872)\d{7}$/`. */
  predicate PhonePattern(t: string) {
    |t| == 10 && t[..3] in AreaCodes && forall k :: 3 <= k < 10 ==> IsDigit(t[k])
  }

  /** The phone number the check accepts: the pattern matches its digits. */
  predicate PhoneValid(value: string) {
    PhonePattern(DigitsOnly(value))
  }

  /** The phone error handleChange records for a new value. */
  function PhoneError(value: string): (r: string)
    ensures r == "" <==> PhoneValid(value)
    ensures r == "" || r == InvalidPhone
  {
    if PhoneValid(value) then "" else InvalidPhone
  }

  /** A phone number is accepted exactly when it has ten digits and starts with an NYC or Chicago area code. */
  lemma PhoneValidIff(value: string)
    ensures PhoneValid(value) <==>
              |DigitsOnly(value)| == 10
              && DigitsOnly(value)[..3] in {"212", "646", "917", "718", "347", "929", "312", "773", "872"}
  {
  }

  /** Removing the non-digits distributes over concatenation. */
  lemma {:induction false} DigitsOnlyAppend(a: string, b: string)
    ensures DigitsOnly(a + b) == DigitsOnly(a) + DigitsOnly(b)
    decreases |a|
  {
    if a == [] {
      assert a + b == b;
    } else {
      var head := if IsDigit(a[0]) then [a[0]] else [];
      assert (a + b)[0] == a[0];
      assert (a + b)[1..] == a[1..] + b;
      DigitsOnlyAppend(a[1..], b);
      calc {
        DigitsOnly(a + b);
        head + DigitsOnly(a[1..] + b);
        head + (DigitsOnly(a[1..]) + DigitsOnly(b));
        (head + DigitsOnly(a[1..])) + DigitsOnly(b);
        DigitsOnly(a) + DigitsOnly(b);
      }
    }
  }

  /** A string of digits is left as it is. */
  lemma {:induction false} DigitsOnlyOfDigits(t: string)
    requires forall k :: 0 <= k < |t| ==> IsDigit(t[k])
    ensures DigitsOnly(t) == t
    decreases |t|
  {
    if t != [] {
      DigitsOnlyOfDigits(t[1..]);
      assert [t[0]] + t[1..] == t;
    }
  }

  /** Inserting a character that is not a digit (a space, a dash, a parenthesis) anywhere does not change the verdict. */
  lemma NonDigitIgnored(a: string, c: char, b: string)
    requires !IsDigit(c)
    ensures PhoneValid(a + [c] + b) == PhoneValid(a + b)
  {
    DigitsOnlyAppend(a + [c], b);
    DigitsOnlyAppend(a, [c]);
    DigitsOnlyAppend(a, b);
    assert DigitsOnly([c]) == [];
    assert DigitsOnly(a + [c]) == DigitsOnly(a) + [] == DigitsOnly(a);
  }

  /** Formatting is irrelevant: any number whose digits are an accepted number's digits is accepted. */
  lemma SameDigitsSameVerdict(value: string, digits: string)
    requires forall k :: 0 <= k < |digits| ==> IsDigit(digits[k])
    requires DigitsOnly(value) == digits
    ensures PhoneValid(value) == PhoneValid(digits)
  {
    DigitsOnlyOfDigits(digits);
  }

  // ---------------------------------------------------------------------------------------------
  // handleChange's effect on the errors

  /** The errors after a change of `f` to `value`: only the e-mail and the phone fields are checked. */
  function UpdatedErrors(errors: Errors, f: Field, value: string): (r: Errors)
    ensures f != Email && f != Phone ==> r == errors
    ensures f == Email ==> r.phone == errors.phone && (r.email == "" <==> EmailPattern(value))
    ensures f == Phone ==> r.email == errors.email && (r.phone == "" <==> PhoneValid(value))
  {
    match f
    case Email => errors.(email := EmailError(value))
    case Phone => errors.(phone := PhoneError(value))
    case _ => errors
  }

  // ---------------------------------------------------------------------------------------------
  // The Gmail link

  /** A character encodeURIComponent leaves as it is: `A-Z a-z 0-9 - _ . ! ~ * ' ( )`. */
  predicate UriUnreserved(c: char) {
    ('A' <= c <= 'Z') || ('a' <= c <= 'z') || ('0' <= c <= '9')
    || c == '-' || c == '_' || c == '.' || c == '!' || c == '~' || c == '*' || c == '\'' || c == '(' || c == ')'
  }

  /** An upper-case hexadecimal digit. */
  function HexDigit(d: nat): (c: char)
    requires d < 16
    ensures ('0' <= c <= '9') || ('A' <= c <= 'F')
  {
    if d < 10 then ('0' as int + d) as char else ('A' as int + d - 10) as char
  }

  /** The UTF-8 encoding of a code point. */
  function Utf8(c: char): (bytes: seq<nat>)
    ensures 1 <= |bytes| <= 4
    ensures forall k :: 0 <= k < |bytes| ==> bytes[k] < 256
  {
    var n := c as int;
    if n < 0x80 then [n]
    else if n < 0x800 then [0xC0 + n / 0x40, 0x80 + n % 0x40]
    else if n < 0x1_0000 then [0xE0 + n / 0x1000, 0x80 + n / 0x40 % 0x40, 0x80 + n % 0x40]
    else [0xF0 + n / 0x4_0000, 0x80 + n / 0x1000 % 0x40, 0x80 + n / 0x40 % 0x40, 0x80 + n % 0x40]
  }

  /** `%XY` for each byte. */
  function PercentBytes(bytes: seq<nat>): (r: string)
    requires forall k :: 0 <= k < |bytes| ==> bytes[k] < 256
    ensures |r| == 3 * |bytes|
  {
    if bytes == [] then ""
    else ['%', HexDigit(bytes[0] / 16), HexDigit(bytes[0] % 16)] + PercentBytes(bytes[1..])
  }

  /** `encodeURIComponent(s)`: unreserved characters as they are, every other one as its UTF-8 bytes in `%XY` form. */
  function EncodeUriComponent(s: string): string {
    if s == [] then ""
    else (if UriUnreserved(s[0]) then [s[0]] else PercentBytes(Utf8(s[0]))) + EncodeUriComponent(s[1..])
  }

  /** A character an encoded component can hold: an unreserved one or `%`. */
  predicate EncodedChar(c: char) {
    UriUnreserved(c) || c == '%'
  }

  lemma {:induction false} PercentBytesEncoded(bytes: seq<nat>)
    requires forall k :: 0 <= k < |bytes| ==> bytes[k] < 256
    ensures forall k :: 0 <= k < |PercentBytes(bytes)| ==> EncodedChar(PercentBytes(bytes)[k])
    decreases |bytes|
  {
    if bytes != [] {
      PercentBytesEncoded(bytes[1..]);
    }
  }

  /**
   * An encoded component holds only unreserved characters and `%`: no `&`, `=`, `#` or space that
   * would end or split a query parameter.
   */
  lemma {:induction false} EncodedOnlySafeChars(s: string)
    ensures forall k :: 0 <= k < |EncodeUriComponent(s)| ==> EncodedChar(EncodeUriComponent(s)[k])
    decreases |s|
  {
    if s != [] {
      EncodedOnlySafeChars(s[1..]);
      if !UriUnreserved(s[0]) {
        PercentBytesEncoded(Utf8(s[0]));
      }
    }
  }

  /** A component made of unreserved characters is not changed by the encoding. */
  lemma {:induction false} EncodeUnreservedIdentity(s: string)
    requires forall k :: 0 <= k < |s| ==> UriUnreserved(s[k])
    ensures EncodeUriComponent(s) == s
    decreases |s|
  {
    if s != [] {
      EncodeUnreservedIdentity(s[1..]);
      assert [s[0]] + s[1..] == s;
    }
  }

  /** The subject line: `Early Access Request: ` and the full name, or `New Submission` when it is empty. */
  function MailSubject(d: FormData): string {
    "Early Access Request: " + StringOr(d.fullName, "New Submission")
  }

  /** The subject names the submitter when a full name was typed and falls back to `New Submission` otherwise. */
  lemma SubjectNamesSubmitter(d: FormData)
    ensures |MailSubject(d)| > 22 && MailSubject(d)[..22] == "Early Access Request: "
    ensures d.fullName != "" ==> MailSubject(d)[22..] == d.fullName
    ensures d.fullName == "" ==> MailSubject(d)[22..] == "New Submission"
  {
    assert |"Early Access Request: "| == 22;
  }

  /** The lines of the mail body, as the template literal lays them out between its leading and trailing lines. */
  function BodyLines(d: FormData): seq<string> {
    [ "Full Name: " + StringOr(d.fullName, "N/A"),
      "Email Address: " + StringOr(d.email, "N/A"),
      "Property Address: " + StringOr(d.address, "N/A"),
      "Phone Number: " + StringOr(d.phone, "N/A"),
      "Property Type: " + StringOr(d.propertyType, "N/A"),
      "Interest Level: " + StringOr(d.interestLevel, "N/A"),
      "Additional Comments: " + StringOr(d.comments, "None") ]
  }

  /** An untouched form mails `N/A` for every field and `None` for the comments. */
  lemma EmptyFormLines()
    ensures var empty := FormData("", "", "", "", "", "", "");
            BodyLines(empty) == [ "Full Name: N/A", "Email Address: N/A", "Property Address: N/A",
                                  "Phone Number: N/A", "Property Type: N/A", "Interest Level: N/A",
                                  "Additional Comments: None" ]
            && MailSubject(empty) == "Early Access Request: New Submission"
  {
    assert "Full Name: " + "N/A" == "Full Name: N/A";
    assert "Email Address: " + "N/A" == "Email Address: N/A";
    assert "Property Address: " + "N/A" == "Property Address: N/A";
    assert "Phone Number: " + "N/A" == "Phone Number: N/A";
    assert "Property Type: " + "N/A" == "Property Type: N/A";
    assert "Interest Level: " + "N/A" == "Interest Level: N/A";
    assert "Additional Comments: " + "None" == "Additional Comments: None";
    assert "Early Access Request: " + "New Submission" == "Early Access Request: New Submission";
  }

  /**
   * The mail body: the template literal of generateGmailLink, which starts with a line break and
   * ends, after the last line break, with the four spaces that indent its closing backquote.
   */
  function MailBody(d: FormData): (r: string)
    ensures 5 <= |r| && r[0] == '\n' && r[|r| - 5..] == "\n    "
  {
    "\n" + "Full Name: " + StringOr(d.fullName, "N/A")
    + "\n" + "Email Address: " + StringOr(d.email, "N/A")
    + "\n" + "Property Address: " + StringOr(d.address, "N/A")
    + "\n" + "Phone Number: " + StringOr(d.phone, "N/A")
    + "\n" + "Property Type: " + StringOr(d.propertyType, "N/A")
    + "\n" + "Interest Level: " + StringOr(d.interestLevel, "N/A")
    + "\n" + "Additional Comments: " + StringOr(d.comments, "None")
    + "\n" + "    "
  }

  /** The compose URL without its query. */
  const GmailBase := "https://mail.google.com/mail/?"

  /** The query of the compose URL. */
  function GmailQuery(d: FormData): string {
    "view=cm&fs=1&to=contact@vigil.com&su=" + EncodeUriComponent(MailSubject(d))
    + "&body=" + EncodeUriComponent(MailBody(d))
  }

  /** generateGmailLink. */
  function GmailLink(d: FormData): (r: string)
    ensures |GmailBase| <= |r| && r[..|GmailBase|] == GmailBase
    ensures Split(r[|GmailBase|..], '&') == QueryParameters(d)
  {
    GmailQueryParameters(d);
    var r := GmailBase + GmailQuery(d);
    assert r[|GmailBase|..] == GmailQuery(d);
    r
  }

  /** The query's parameters, in order. */
  function QueryParameters(d: FormData): seq<string> {
    [ "view=cm", "fs=1", "to=contact@vigil.com",
      "su=" + EncodeUriComponent(MailSubject(d)),
      "body=" + EncodeUriComponent(MailBody(d)) ]
  }

  /** An encoded component holds no `&`. */
  lemma EncodedHasNoAmpersand(s: string)
    ensures Free(EncodeUriComponent(s), '&')
  {
    EncodedOnlySafeChars(s);
  }

  /** The five parameters joined by `&`, grouped from the right. */
  lemma FiveJoined(p1: string, p2: string, p3: string, p4: string, p5: string)
    ensures p1 + ['&'] + p2 + ['&'] + p3 + ['&'] + p4 + ['&'] + p5
         == p1 + ['&'] + (p2 + ['&'] + (p3 + ['&'] + (p4 + ['&'] + p5)))
  {
  }

  /** Five `&`-free parameters joined by `&` split back into those five. */
  lemma FiveParameters(p1: string, p2: string, p3: string, p4: string, p5: string)
    requires Free(p1, '&') && Free(p2, '&') && Free(p3, '&') && Free(p4, '&') && Free(p5, '&')
    ensures Split(p1 + ['&'] + p2 + ['&'] + p3 + ['&'] + p4 + ['&'] + p5, '&') == [p1, p2, p3, p4, p5]
  {
    var q45 := p4 + ['&'] + p5;
    var q345 := p3 + ['&'] + q45;
    var q2345 := p2 + ['&'] + q345;
    FiveJoined(p1, p2, p3, p4, p5);
    SplitWithout(p1, '&');
    SplitWithout(p2, '&');
    SplitWithout(p3, '&');
    SplitWithout(p4, '&');
    SplitWithout(p5, '&');
    SplitAppend(p4, '&', p5);
    SplitAppend(p3, '&', q45);
    SplitAppend(p2, '&', q345);
    SplitAppend(p1, '&', q2345);
  }

  /** The fixed start of the query: three parameters and the start of the subject's. */
  lemma ComposePrefix()
    ensures "view=cm&fs=1&to=contact@vigil.com&su=" == "view=cm" + ['&'] + "fs=1" + ['&'] + "to=contact@vigil.com" + ['&'] + "su="
  {
  }

  /** The fixed pieces of the query hold no `&`. */
  lemma FixedPiecesFree()
    ensures Free("view=cm", '&') && Free("fs=1", '&') && Free("to=contact@vigil.com", '&')
    ensures Free("su=", '&') && Free("body=", '&')
  {
  }

  /**
   * The encoding keeps the link well formed: splitting its query at `&` gives exactly the five
   * parameters, the subject and the body whole, whatever the visitor typed.
   */
  lemma GmailQueryParameters(d: FormData)
    ensures Split(GmailQuery(d), '&') == QueryParameters(d)
  {
    var subject, body := EncodeUriComponent(MailSubject(d)), EncodeUriComponent(MailBody(d));
    ComposePrefix();
    assert "&body=" == ['&'] + "body=";
    assert GmailQuery(d) == "view=cm" + ['&'] + "fs=1" + ['&'] + "to=contact@vigil.com" + ['&'] + ("su=" + subject) + ['&'] + ("body=" + body);
    FixedPiecesFree();
    EncodedHasNoAmpersand(MailSubject(d));
    EncodedHasNoAmpersand(MailBody(d));
    FreeAppend("su=", subject, '&');
    FreeAppend("body=", body, '&');
    FiveParameters("view=cm", "fs=1", "to=contact@vigil.com", "su=" + subject, "body=" + body);
  }

  /**
   * None of the six single-line inputs holds a line break; the comments come from a textarea and
   * may hold any number.
   */
  predicate SingleLineInputs(d: FormData) {
    forall f :: f != Comments ==> Free(d.Get(f), '\n')
  }

  lemma AppendLine(text: string, heading: string, value: string)
    requires Free(heading, '\n') && Free(value, '\n')
    ensures Split(text + "\n" + heading + value, '\n') == Split(text, '\n') + [heading + value]
  {
    assert text + "\n" + heading + value == text + ['\n'] + (heading + value);
    FreeAppend(heading, value, '\n');
    SplitWithout(heading + value, '\n');
    SplitAppend(text, '\n', heading + value);
  }

  /** The headings of the body's lines and its fallbacks hold no line break. */
  lemma HeadingsSingleLine()
    ensures Free("Full Name: ", '\n') && Free("Email Address: ", '\n') && Free("Property Address: ", '\n')
    ensures Free("Phone Number: ", '\n') && Free("Property Type: ", '\n') && Free("Interest Level: ", '\n')
    ensures Free("Additional Comments: ", '\n') && Free("    ", '\n') && Free("N/A", '\n') && Free("None", '\n')
  {
  }

  /** The body up to the comments line: a line break before each of the six single-line fields. */
  ghost function FieldLinesText(d: FormData): string {
    "\n" + "Full Name: " + StringOr(d.fullName, "N/A")
    + "\n" + "Email Address: " + StringOr(d.email, "N/A")
    + "\n" + "Property Address: " + StringOr(d.address, "N/A")
    + "\n" + "Phone Number: " + StringOr(d.phone, "N/A")
    + "\n" + "Property Type: " + StringOr(d.propertyType, "N/A")
    + "\n" + "Interest Level: " + StringOr(d.interestLevel, "N/A")
  }

  lemma FieldLines(d: FormData)
    requires SingleLineInputs(d)
    ensures Split(FieldLinesText(d), '\n') == [""] + BodyLines(d)[..6]
  {
    HeadingsSingleLine();
    assert Free(d.Get(FullName), '\n') && Free(d.Get(Email), '\n') && Free(d.Get(Address), '\n');
    assert Free(d.Get(Phone), '\n') && Free(d.Get(PropertyType), '\n') && Free(d.Get(InterestLevel), '\n');
    assert "\n" == "" + "\n";
    var t1 := "" + "\n" + "Full Name: " + StringOr(d.fullName, "N/A");
    AppendLine("", "Full Name: ", StringOr(d.fullName, "N/A"));
    var t2 := t1 + "\n" + "Email Address: " + StringOr(d.email, "N/A");
    AppendLine(t1, "Email Address: ", StringOr(d.email, "N/A"));
    var t3 := t2 + "\n" + "Property Address: " + StringOr(d.address, "N/A");
    AppendLine(t2, "Property Address: ", StringOr(d.address, "N/A"));
    var t4 := t3 + "\n" + "Phone Number: " + StringOr(d.phone, "N/A");
    AppendLine(t3, "Phone Number: ", StringOr(d.phone, "N/A"));
    var t5 := t4 + "\n" + "Property Type: " + StringOr(d.propertyType, "N/A");
    AppendLine(t4, "Property Type: ", StringOr(d.propertyType, "N/A"));
    var t6 := t5 + "\n" + "Interest Level: " + StringOr(d.interestLevel, "N/A");
    AppendLine(t5, "Interest Level: ", StringOr(d.interestLevel, "N/A"));
    assert Split("", '\n') == [""];
    assert t1 == "\n" + "Full Name: " + StringOr(d.fullName, "N/A");
    assert t6 == FieldLinesText(d);
  }

  /**
   * Split at line breaks, the body is an empty first line, one line per single-line field with its
   * heading and its value or default, the comments line broken wherever the comments break, and the
   * four spaces that indent the closing backquote.
   */
  lemma MailBodyLines(d: FormData)
    requires SingleLineInputs(d)
    ensures Split(MailBody(d), '\n') == [""] + BodyLines(d)[..6] + Split(BodyLines(d)[6], '\n') + ["    "]
  {
    var comments := BodyLines(d)[6];
    var tail := comments + ['\n'] + "    ";
    assert MailBody(d) == FieldLinesText(d) + ['\n'] + tail;
    FieldLines(d);
    HeadingsSingleLine();
    SplitAppend(comments, '\n', "    ");
    SplitWithout("    ", '\n');
    SplitAppend(FieldLinesText(d), '\n', tail);
  }

  // ---------------------------------------------------------------------------------------------
  // The component

  /** What the submit button does: an alert, or opening the compose link and navigating to a route. */
  datatype ClickEffect = Alert(message: string) | OpenAndNavigate(link: string, route: string)

  /** A form whose input and error state only its handlers change. */
  class EarlyAccessForm {
    var formData: FormData
    var errors: Errors

    /**
     * Each error is empty or its message, and for a non-empty value it is empty exactly when the
     * value passes its check: the error was computed from the value when it was typed.
     */
    predicate Valid()
      reads this
    {
      (errors.email == "" || errors.email == InvalidEmail)
      && (errors.phone == "" || errors.phone == InvalidPhone)
      && (formData.email != "" ==> (errors.email == "" <==> EmailPattern(formData.email)))
      && (formData.phone != "" ==> (errors.phone == "" <==> PhoneValid(formData.phone)))
    }

    /** The initial state: every field empty, no errors. */
    constructor()
      ensures Valid()
      ensures formData == FormData("", "", "", "", "", "", "") && errors == Errors("", "")
    {
      formData := FormData("", "", "", "", "", "", "");
      errors := Errors("", "");
    }

    /** handleChange for the input named `name` taking `value`. */
    method HandleChange(name: Field, value: string)
      requires Valid()
      modifies this
      ensures Valid()
      ensures formData == old(formData).With(name, value)
      ensures errors == UpdatedErrors(old(errors), name, value)
    {
      formData := formData.With(name, value);
      if name == Email {
        errors := errors.(email := EmailError(value));
      }
      if name == Phone {
        errors := errors.(phone := PhoneError(value));
      }
    }

    /**
     * handleButtonClick: it goes on exactly when both values are present and error-free, which,
     * the errors being those of the current values, is exactly when both values pass their checks.
     */
    method HandleButtonClick() returns (effect: ClickEffect)
      requires Valid()
      ensures effect.OpenAndNavigate? <==>
                formData.email != "" && formData.phone != "" && errors.email == "" && errors.phone == ""
      ensures effect.OpenAndNavigate? <==> EmailPattern(formData.email) && PhoneValid(formData.phone)
      ensures effect.OpenAndNavigate? ==> effect == OpenAndNavigate(GmailLink(formData), ConfirmationRoute)
      ensures effect.Alert? ==> effect.message == FixErrors
    {
      if formData.email == "" || formData.phone == "" || errors.email != "" || errors.phone != "" {
        return Alert(FixErrors);
      }
      var emailLink := GmailLink(formData);
      return OpenAndNavigate(emailLink, ConfirmationRoute);
    }
  }
}
