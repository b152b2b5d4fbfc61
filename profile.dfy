/**
 * `formatProvisioningProfile` and `extractDate`: the decoded profile payload
 * is scanned as raw text, never parsed, and turned into an ordered list of
 * report sections.
 */
module Profile {
  import opened Wrappers
  import opened Text
  import opened Patterns
  import opened Decimal

  /** A point in time (Foundation's `Date`), in whole seconds. */
  type Instant = int

  /**
   * One titled report section. `isWarning` is the tri-state flag:
   * None is informational, Some(false) is fine, Some(true) is a warning.
   */
  datatype Section = Section(title: string, content: string, isWarning: Option<bool>)

  /**
   * The clock and the Foundation and command-line services the function
   * calls, as values supplied by the caller.
   */
  datatype Env = Env(
    now: Instant,                                      // Date()
    parseIso8601: string -> Option<Instant>,           // ISO8601DateFormatter().date(from:)
    parseOpensslDate: string -> Option<Instant>,       // DateFormatter "MMM d HH:mm:ss yyyy z"
    dayDifference: (Instant, Instant) -> Option<int>,  // Calendar.current.dateComponents([.day], from:to:).day
    dateLabel: Instant -> string,                         // medium date style, short time style
    decodeBase64: string -> Option<seq<bv8>>,          // Data(base64Encoded:)
    opensslStartDate: seq<bv8> -> Option<string>)      // `openssl x509 -startdate` on a temp file, read as UTF-8

  const Keys: seq<string> := ["Name", "AppIDName", "application-identifier", "TeamName", "UUID"]
  const AppIdKey: string := "application-identifier"
  const AppIdTitle: string := "Application Identifier (Provisioning Profile)"
  const CreationKey: string := "CreationDate"
  const ExpirationKey: string := "ExpirationDate"
  const CreationTitle: string := "Provisioning Profile Creation Date"
  const ExpirationTitle: string := "Provisioning Profile Expiration Date"
  const CertificateTitle: string := "Distribution Certificate Created"
  const RawTitle: string := "Raw XML"
  const StringOpen: string := "<string>"
  const StringClose: string := "</string>"
  const DateOpen: string := "<date>"
  const DateClose: string := "</date>"
  const NotBefore: string := "notBefore"
  const NotBeforePrefix: string := "notBefore="

  function KeyMarker(key: string): string {
    "<key>" + key + "</key>"
  }

  /** `s` contains `p` at `i` and nowhere before. */
  predicate FirstAt(s: string, p: string, i: int) {
    At(s, p, i) && forall k :: 0 <= k < i ==> !At(s, p, k)
  }

  /** The text of the first `open(.*?)close` match at or after `from`, with every `open` and then every `close` removed. */
  function ElementText(text: string, open: string, close: string, from: nat): (r: Option<string>)
    requires |open| > 0 && |close| > 0
    ensures r.Some? ==> |r.value| <= |text| - from
  {
    match FirstElement(text, open, close, from)
    case None => None
    case Some(m) => Some(RemoveAll(RemoveAll(text[m.start..m.end], open), close))
  }

  /**
   * The element text found after the first occurrence of `marker` (a key's
   * `KeyMarker`). Shared by the string fields and `extractDate`.
   */
  function TaggedValue(text: string, marker: string, open: string, close: string): (r: Option<string>)
    requires |open| > 0 && |close| > 0
    ensures r.Some? ==> Find(text, marker).Some?
    ensures r.Some? ==> |r.value| <= |text| - |marker|
  {
    match Find(text, marker)
    case None => None
    case Some(i) => ElementText(text, open, close, i + |marker|)
  }

  /** The value of a string field: the tagged value, trimmed. */
  function FieldValue(text: string, key: string): (r: Option<string>)
    ensures r.Some? ==> Trimmed(r.value, WhitespacesAndNewlines)
  {
    match TaggedValue(text, KeyMarker(key), StringOpen, StringClose)
    case None => None
    case Some(v) => Some(Trim(v, WhitespacesAndNewlines))
  }

  /** The label a key is shown under: only `application-identifier` is relabelled. */
  function DisplayTitle(key: string): (r: string)
    ensures key == AppIdKey ==> r == AppIdTitle
    ensures key != AppIdKey ==> r == key
  {
    if key == AppIdKey then AppIdTitle else key
  }

  function FieldSection(text: string, key: string): (r: Option<Section>)
    ensures r.Some? ==> r.value.title == DisplayTitle(key) && r.value.isWarning == None
    ensures r.Some? <==> FieldValue(text, key).Some?
  {
    match FieldValue(text, key)
    case None => None
    case Some(v) => Some(Section(DisplayTitle(key), v, None))
  }

  /** Every section of `s` that carries a flag has the given title. */
  predicate OnlyWarnsAs(s: seq<Section>, title: string) {
    forall i :: 0 <= i < |s| && s[i].isWarning != None ==> s[i].title == title
  }

  function Emit(o: Option<Section>): (r: seq<Section>)
    ensures |r| <= 1
  {
    if o.Some? then [o.value] else []
  }

  /** The sections the key loop appends, in key order. */
  function FieldSections(text: string, keys: seq<string>): (r: seq<Section>)
    ensures |r| <= |keys|
    ensures forall i :: 0 <= i < |r| ==> r[i].isWarning == None
    ensures forall i :: 0 <= i < |r| ==> exists k :: k in keys && r[i].title == DisplayTitle(k)
  {
    if |keys| == 0 then []
    else
      var front := keys[..|keys| - 1];
      var last := keys[|keys| - 1];
      var r := FieldSections(text, front) + Emit(FieldSection(text, last));
      assert forall k :: k in front ==> k in keys;
      r
  }

  /** `extractDate(forKey:from:using:)` with the formatter passed as `parse`. */
  function ExtractDate(parse: string -> Option<Instant>, key: string, text: string): (r: Option<Instant>)
    ensures r.Some? ==> exists raw :: TaggedValue(text, KeyMarker(key), DateOpen, DateClose) == Some(raw) && parse(raw) == r
  {
    match TaggedValue(text, KeyMarker(key), DateOpen, DateClose)
    case None => None
    case Some(raw) => parse(raw)
  }

  /** `label (N days ago)` or `label (N days left)`. */
  function DaysText(dateLabel: string, days: int, suffix: string): string {
    dateLabel + " (" + IntToDecimal(days) + suffix
  }

  /** `.day ?? 0` of the calendar difference from `a` to `b`. */
  function Days(env: Env, a: Instant, b: Instant): int {
    env.dayDifference(a, b).GetOr(0)
  }

  function CreationSection(env: Env, text: string): (r: Option<Section>)
    ensures r.Some? ==> r.value.title == CreationTitle && r.value.isWarning == None
    ensures r.Some? <==> ExtractDate(env.parseIso8601, CreationKey, text).Some?
  {
    match ExtractDate(env.parseIso8601, CreationKey, text)
    case None => None
    case Some(d) =>
      Some(Section(CreationTitle, DaysText(env.dateLabel(d), Days(env, d, env.now), " days ago)"), None))
  }

  function ExpirationSection(env: Env, text: string): (r: Option<Section>)
    ensures r.Some? ==> r.value.title == ExpirationTitle && r.value.isWarning.Some?
    ensures r.Some? <==> ExtractDate(env.parseIso8601, ExpirationKey, text).Some?
  {
    match ExtractDate(env.parseIso8601, ExpirationKey, text)
    case None => None
    case Some(d) =>
      var daysLeft := Days(env, env.now, d);
      Some(Section(ExpirationTitle, DaysText(env.dateLabel(d), daysLeft, " days left)"), Some(daysLeft < 0)))
  }

  /** The certificate blob: the first `<data>` match, tags and `\n` removed. */
  function CertificateBase64(text: string): (r: Option<string>)
    ensures r.None? <==> forall b, e :: !DataElementAt(text, b, e)
    ensures r.Some? ==> '\n' !in r.value
  {
    FirstDataElementIsLeftmost(text, 0);
    match FirstDataElement(text, 0)
    case None => None
    case Some(m) =>
      var v := RemoveAll(RemoveAll(RemoveAll(text[m.start..m.end], DataOpen), DataClose), "\n");
      assert v == Drop(RemoveAll(RemoveAll(text[m.start..m.end], DataOpen), DataClose), '\n') by {
        RemoveCharIsDrop(RemoveAll(RemoveAll(text[m.start..m.end], DataOpen), DataClose), '\n');
      }
      Some(v)
  }

  /** `lines.first(where: { $0.contains(p) })` */
  function FirstContaining(lines: seq<string>, p: string): (r: Option<nat>)
    ensures r.Some? ==> r.value < |lines| && Find(lines[r.value], p).Some?
    ensures r.Some? ==> forall j :: 0 <= j < r.value ==> Find(lines[j], p).None?
    ensures r.None? ==> forall j :: 0 <= j < |lines| ==> Find(lines[j], p).None?
  {
    if |lines| == 0 then None
    else if Find(lines[0], p).Some? then Some(0)
    else match FirstContaining(lines[1..], p)
      case None => None
      case Some(k) => Some(k + 1)
  }

  /** `lines[i]` is the first line that contains `p`. */
  predicate FirstLineWith(lines: seq<string>, p: string, i: int) {
    0 <= i < |lines| && Find(lines[i], p).Some?
    && forall j :: 0 <= j < i ==> Find(lines[j], p).None?
  }

  /** The search returns the first line that contains `p`. */
  lemma FirstContainingIsFirst(lines: seq<string>, p: string)
    ensures forall i :: FirstLineWith(lines, p, i) ==> FirstContaining(lines, p) == Some(i)
  {
    forall i | FirstLineWith(lines, p, i) ensures FirstContaining(lines, p) == Some(i) {
      var r := FirstContaining(lines, p);
      assert r.Some? && r.value <= i;
    }
  }

  /**
   * The line of the openssl output that holds the date: the first line
   * mentioning `notBefore`, else the first line; None when there is no line.
   */
  function StartDateLine(output: string): (r: Option<string>)
    ensures var lines := Split(output, '\n');
            forall i :: FirstLineWith(lines, NotBefore, i) ==> r == Some(lines[i])
    ensures var lines := Split(output, '\n');
            (forall i :: 0 <= i < |lines| ==> Find(lines[i], NotBefore).None?) && |lines| > 0 ==> r == Some(lines[0])
    ensures r.None? <==> |Split(output, '\n')| == 0
  {
    var lines := Split(output, '\n');
    FirstContainingIsFirst(lines, NotBefore);
    match FirstContaining(lines, NotBefore)
    case Some(i) => Some(lines[i])
    case None => if |lines| == 0 then None else Some(lines[0])
  }

  function CertificateSection(env: Env, text: string): (r: Option<Section>)
    ensures r.Some? ==> r.value.title == CertificateTitle && r.value.isWarning == None
    ensures r.Some? ==> CertificateBase64(text).Some?
  {
    match CertificateBase64(text)
    case None => None
    case Some(b64) =>
      match env.decodeBase64(b64)
      case None => None
      case Some(der) =>
        match env.opensslStartDate(der)
        case None => None
        case Some(out) =>
          match StartDateLine(out)
          case None => None
          case Some(line) =>
            match env.parseOpensslDate(Trim(RemoveAll(line, NotBeforePrefix), Whitespaces))
            case None => None
            case Some(d) =>
              Some(Section(CertificateTitle, DaysText(env.dateLabel(d), Days(env, d, env.now), " days ago)"), None))
  }

  /** Sections appended after `f`, the last one given, leave `f` as the prefix. */
  lemma AppendedAfter(f: seq<Section>, a: seq<Section>, b: seq<Section>, c: seq<Section>, last: Section)
    requires |a| <= 1 && |b| <= 1 && |c| <= 1
    ensures var r := f + a + b + c + [last];
            |f| < |r| <= |f| + 4 && r[..|f|] == f && r[|r| - 1] == last
  {
    assert (f + a + b + c + [last])[..|f|] == f;
  }

  /** What `formatProvisioningProfile(rawXML)` returns. */
  function ProfileSections(env: Env, rawXML: string): (r: seq<Section>)
    ensures var f := FieldSections(rawXML, Keys);
            |f| < |r| <= |f| + 4 && r[..|f|] == f
    ensures r[|r| - 1] == Section(RawTitle, rawXML, None)
  {
    var f := FieldSections(rawXML, Keys);
    var creation := Emit(CreationSection(env, rawXML));
    var expiration := Emit(ExpirationSection(env, rawXML));
    var certificate := Emit(CertificateSection(env, rawXML));
    var raw := Section(RawTitle, rawXML, None);
    AppendedAfter(f, creation, expiration, certificate, raw);
    f + creation + expiration + certificate + [raw]
  }

  /** One more key appends that key's section, if any. */
  lemma FieldSectionsStep(text: string, keys: seq<string>, i: nat)
    requires i < |keys|
    ensures FieldSections(text, keys[..i + 1]) == FieldSections(text, keys[..i]) + Emit(FieldSection(text, keys[i]))
  {
    assert keys[..i + 1][..i] == keys[..i];
  }

  /** The `for key in keys` loop of `formatProvisioningProfile`. */
  method AppendFieldSections(rawXML: string) returns (sections: seq<Section>)
    ensures sections == FieldSections(rawXML, Keys)
  {
    sections := [];
    var keys := Keys;
    for i := 0 to |keys|
      invariant sections == FieldSections(rawXML, keys[..i])
    {
      var key := keys[i];
      FieldSectionsStep(rawXML, keys, i);
      // the first <string>…</string> match after the key's marker, tags removed
      var tagged := TaggedValue(rawXML, KeyMarker(key), StringOpen, StringClose);
      if tagged.Some? {
        var value := Trim(tagged.value, WhitespacesAndNewlines);
        var displayKey := if key == AppIdKey then AppIdTitle else key;
        sections := sections + [Section(displayKey, value, None)];
      }
    }
    assert keys[..|keys|] == keys;
  }

  /** The creation-date block: parse the date, count the days since, append. */
  method AppendCreationSection(env: Env, rawXML: string, sections: seq<Section>) returns (r: seq<Section>)
    ensures r == sections + Emit(CreationSection(env, rawXML))
  {
    r := sections;
    var creationDate := ExtractDate(env.parseIso8601, CreationKey, rawXML);
    if creationDate.Some? {
      var daysAgo := env.dayDifference(creationDate.value, env.now).GetOr(0);
      var dateString := env.dateLabel(creationDate.value) + " (" + IntToDecimal(daysAgo) + " days ago)";
      r := r + [Section(CreationTitle, dateString, None)];
    }
  }

  /** The expiration-date block: parse the date, count the days left, flag a negative count, append. */
  method AppendExpirationSection(env: Env, rawXML: string, sections: seq<Section>) returns (r: seq<Section>)
    ensures r == sections + Emit(ExpirationSection(env, rawXML))
  {
    r := sections;
    var expirationDate := ExtractDate(env.parseIso8601, ExpirationKey, rawXML);
    if expirationDate.Some? {
      var daysLeft := env.dayDifference(env.now, expirationDate.value).GetOr(0);
      var dateString := env.dateLabel(expirationDate.value) + " (" + IntToDecimal(daysLeft) + " days left)";
      var isWarning := daysLeft < 0;
      r := r + [Section(ExpirationTitle, dateString, Some(isWarning))];
    }
  }

  /** `formatProvisioningProfile`: the key loop, then the dates, the certificate and the raw text. */
  method FormatProvisioningProfile(env: Env, rawXML: string) returns (sections: seq<Section>)
    ensures sections == ProfileSections(env, rawXML)
  {
    sections := AppendFieldSections(rawXML);
    sections := AppendCreationSection(env, rawXML, sections);
    sections := AppendExpirationSection(env, rawXML, sections);
    var certificate := CertificateSection(env, rawXML);
    if certificate.Some? {
      sections := sections + [certificate.value];
    }
    sections := sections + [Section(RawTitle, rawXML, None)];
  }
}
