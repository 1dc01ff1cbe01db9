/**
 * The link classifier of src/urlValidator.js: the static `URLValidator`
 * methods that decide whether a string is a link and which URL goes with it.
 *
 * `new URL(s)` is the basic URL parser of the WHATWG URL Standard (section 4.4,
 * "URL parsing"). It is not re-implemented: every operation takes the parser
 * as a parameter, so everything proved here holds whatever that parser does.
 * The two regular expressions are modelled exactly, character by character.
 */
module UrlValidator {
  import opened Wrappers
  import opened JsStrings

  // ---------------------------------------------------------------------------
  // The abstracted URL parser
  // ---------------------------------------------------------------------------

  /** The fields of a parsed URL that the validator reads. */
  datatype UrlRecord = UrlRecord(href: string, protocol: string, hostname: string, pathname: string)

  /** What `new URL(s)` does: produce a URL record, or throw a TypeError. */
  datatype ParseOutcome = Parsed(url: UrlRecord) | Threw(message: string)

  type UrlParser = string -> ParseOutcome

  /** Without a base URL the WHATWG parser needs a scheme, which ends in `:`;
      a string without a colon never parses. Lemmas that need a fact about the
      parser name this one. */
  ghost predicate NeedsScheme(parse: UrlParser) {
    forall s :: ':' !in s ==> parse(s).Threw?
  }

  /** `isValidURL`: `new URL(s)` does not throw. */
  predicate IsValidURL(parse: UrlParser, s: string)
    ensures IsValidURL(parse, s) <==> !parse(s).Threw?
  {
    parse(s).Parsed?
  }

  const AllowedProtocols: seq<string> := ["http:", "https:", "ftp:", "ftps:"]

  /** `isValidURLWithProtocol`: `s` parses and its protocol is allow-listed. */
  function IsValidURLWithProtocol(parse: UrlParser, s: string): (r: bool)
    ensures r ==> IsValidURL(parse, s)
    ensures r <==> IsValidURL(parse, s) && parse(s).url.protocol in AllowedProtocols
  {
    match parse(s)
    case Parsed(url) => url.protocol in AllowedProtocols
    case Threw(_) => false
  }

  /** The regular expression `^https?:\/\//i`. */
  predicate HasHttpScheme(s: string) {
    StartsWithIgnoringCase(s, "http://") || StartsWithIgnoringCase(s, "https://")
  }

  // ---------------------------------------------------------------------------
  // The two regular expressions
  // ---------------------------------------------------------------------------

  /** `[a-z0-9]` under the `i` flag. */
  predicate IsAlnum(c: char) {
    IsDigit(c) || 'a' <= c <= 'z' || 'A' <= c <= 'Z'
  }

  /** `[a-z0-9-]` under the `i` flag. */
  predicate IsLdh(c: char) {
    IsAlnum(c) || c == '-'
  }

  /** One label of the domain pattern, `[a-z0-9](?:[a-z0-9-]{0,61}[a-z0-9])?`,
      read alternative by alternative. */
  predicate LabelPattern(p: string) {
    && |p| >= 1
    && IsAlnum(p[0])
    && (|p| == 1 ||
        (&& |p| - 2 <= 61
         && (forall i :: 1 <= i < |p| - 1 ==> IsLdh(p[i]))
         && IsAlnum(p[|p| - 1])))
  }

  /** `isValidDomain`: the pattern `^(?:label\.)+label$` with the `i` flag.
      No label contains a dot, so the labels are the dot-separated pieces. */
  predicate IsValidDomain(s: string)
    ensures IsValidDomain(s) ==> '.' in s
  {
    var labels := Split(s, '.');
    |labels| >= 2 && forall i :: 0 <= i < |labels| ==> LabelPattern(labels[i])
  }

  /** One group of the IP pattern, `25[0-5]|2[0-4][0-9]|[01]?[0-9][0-9]?`;
      the last alternative is spelt out as its four shapes. */
  predicate OctetPattern(p: string) {
    || (|p| == 3 && p[0] == '2' && p[1] == '5' && '0' <= p[2] <= '5')
    || (|p| == 3 && p[0] == '2' && '0' <= p[1] <= '4' && IsDigit(p[2]))
    || (|p| == 1 && IsDigit(p[0]))
    || (|p| == 2 && IsDigit(p[0]) && IsDigit(p[1]))
    || (|p| == 2 && (p[0] == '0' || p[0] == '1') && IsDigit(p[1]))
    || (|p| == 3 && (p[0] == '0' || p[0] == '1') && IsDigit(p[1]) && IsDigit(p[2]))
  }

  /** `isValidIP`: the pattern `^(?:octet\.){3}octet$`. */
  predicate IsValidIP(s: string)
    ensures IsValidIP(s) ==> '.' in s
  {
    var groups := Split(s, '.');
    |groups| == 4 && forall i :: 0 <= i < 4 ==> OctetPattern(groups[i])
  }

  /** A label is 1 to 63 letters, digits and hyphens, not starting or ending
      with a hyphen. */
  lemma LabelPatternMeaning(p: string)
    ensures LabelPattern(p) <==>
      && 1 <= |p| <= 63
      && (forall i :: 0 <= i < |p| ==> IsLdh(p[i]))
      && p[0] != '-' && p[|p| - 1] != '-'
  {
  }

  /** A group is 1 to 3 decimal digits whose value is at most 255; leading
      zeros are allowed. */
  lemma OctetPatternMeaning(p: string)
    ensures OctetPattern(p) <==> 1 <= |p| <= 3 && AllDigits(p) && NumeralValue(p, 10) <= 255
  {
    if 1 <= |p| <= 3 && AllDigits(p) {
      var d0, d1, d2 := DigitValue(p[0]), DigitValue(p[|p| / 2]), DigitValue(p[|p| - 1]);
      assert p[..1][..0] == [];
      assert NumeralValue(p[..1], 10) == d0;
      if |p| == 2 {
        assert p[..|p| - 1] == p[..1];
        assert NumeralValue(p, 10) == 10 * d0 + d2;
      }
      if |p| == 3 {
        assert p[..|p| - 1][..1] == p[..1];
        assert NumeralValue(p[..2], 10) == 10 * d0 + d1;
        assert NumeralValue(p, 10) == 100 * d0 + 10 * d1 + d2;
      }
    }
  }

  /** The domain pattern as the regular expression reads: two or more labels
      joined by dots. */
  lemma DomainIsJoinOfLabels(s: string)
    ensures IsValidDomain(s) <==>
      exists labels :: && |labels| >= 2
                       && (forall i :: 0 <= i < |labels| ==> LabelPattern(labels[i]))
                       && Join(labels, '.') == s
  {
    if IsValidDomain(s) {
      JoinSplit(s, '.');
    }
    forall labels | && |labels| >= 2
                    && (forall i :: 0 <= i < |labels| ==> LabelPattern(labels[i]))
                    && Join(labels, '.') == s
      ensures IsValidDomain(s)
    {
      SplitJoin(labels, '.');
    }
  }

  /** The IP pattern as the regular expression reads: four groups joined by dots. */
  lemma IpIsJoinOfGroups(s: string)
    ensures IsValidIP(s) <==>
      exists groups :: && |groups| == 4
                       && (forall i :: 0 <= i < 4 ==> OctetPattern(groups[i]))
                       && Join(groups, '.') == s
  {
    if IsValidIP(s) {
      JoinSplit(s, '.');
    }
    forall groups | && |groups| == 4
                    && (forall i :: 0 <= i < 4 ==> OctetPattern(groups[i]))
                    && Join(groups, '.') == s
      ensures IsValidIP(s)
    {
      SplitJoin(groups, '.');
    }
  }

  /** Every dotted quad that `isValidIP` accepts also matches the domain pattern. */
  lemma IpIsDomain(s: string)
    requires IsValidIP(s)
    ensures IsValidDomain(s)
  {
    var groups := Split(s, '.');
    forall i | 0 <= i < |groups|
      ensures LabelPattern(groups[i])
    {
      OctetPatternMeaning(groups[i]);
    }
  }

  // ---------------------------------------------------------------------------
  // isValidURLFlexible and detectLinkType
  // ---------------------------------------------------------------------------

  datatype FlexibleResult = FlexibleResult(isValid: bool, url: string)

  /** `isValidURLFlexible`: `s` itself if it parses, else `"https://" + s` if
      `s` has no http(s) scheme and that parses, else invalid. */
  function IsValidURLFlexible(parse: UrlParser, s: string): (r: FlexibleResult)
    ensures r.isValid ==> IsValidURL(parse, r.url)
    ensures r.isValid ==> r.url == s || r.url == "https://" + s
    ensures !r.isValid ==> r.url == s
    ensures r.isValid <==> IsValidURL(parse, s) || (!HasHttpScheme(s) && IsValidURL(parse, "https://" + s))
    ensures HasHttpScheme(s) && !IsValidURL(parse, s) ==> r == FlexibleResult(false, s)
  {
    if IsValidURL(parse, s) then FlexibleResult(true, s)
    else if !HasHttpScheme(s) && IsValidURL(parse, "https://" + s) then FlexibleResult(true, "https://" + s)
    else FlexibleResult(false, s)
  }

  datatype LinkType = FullUrl | Domain | Ip | UrlWithoutProtocol | NotALink

  /** The `type` strings the source returns. */
  function TypeName(t: LinkType): string {
    match t
    case FullUrl => "full_url"
    case Domain => "domain"
    case Ip => "ip"
    case UrlWithoutProtocol => "url_without_protocol"
    case NotALink => "not_a_link"
  }

  /** The five `type` strings are distinct, so a `LinkType` names exactly one. */
  lemma TypeNameInjective(a: LinkType, b: LinkType)
    ensures TypeName(a) == TypeName(b) <==> a == b
  {
  }

  datatype Detection = Detection(linkType: LinkType, isValid: bool, value: string)

  /** `detectLinkType`: the first of full URL, domain, IP, URL without
      protocol that the trimmed input satisfies decides the result. */
  function DetectLinkType(parse: UrlParser, s: string): (d: Detection)
    ensures !d.isValid <==> d.linkType == NotALink
    ensures d.linkType == NotALink ==> d.value == Trim(s)
    ensures d.linkType == FullUrl <==> IsValidURL(parse, Trim(s))
    ensures d.linkType == FullUrl ==> d.value == Trim(s)
    ensures d.linkType == Domain ==> d.value == "https://" + Trim(s) && IsValidDomain(Trim(s))
    ensures d.linkType == Ip ==> d.value == "http://" + Trim(s) && IsValidIP(Trim(s)) && !IsValidDomain(Trim(s))
    ensures d.linkType == UrlWithoutProtocol ==>
              d.value == "https://" + Trim(s) && !HasHttpScheme(Trim(s))
              && IsValidURL(parse, d.value)
    ensures d.isValid ==> d.value == Trim(s) || d.value == "https://" + Trim(s) || d.value == "http://" + Trim(s)
    ensures d.linkType == Domain <==> !IsValidURL(parse, Trim(s)) && IsValidDomain(Trim(s))
    ensures d.linkType == UrlWithoutProtocol <==>
              && !IsValidURL(parse, Trim(s)) && !IsValidDomain(Trim(s)) && !IsValidIP(Trim(s))
              && IsValidURLFlexible(parse, Trim(s)).isValid
    ensures d.linkType == NotALink <==>
              && !IsValidURL(parse, Trim(s)) && !IsValidDomain(Trim(s)) && !IsValidIP(Trim(s))
              && !IsValidURLFlexible(parse, Trim(s)).isValid
  {
    var trimmed := Trim(s);
    if IsValidURL(parse, trimmed) then Detection(FullUrl, true, trimmed)
    else if IsValidDomain(trimmed) then Detection(Domain, true, "https://" + trimmed)
    else if IsValidIP(trimmed) then Detection(Ip, true, "http://" + trimmed)
    else
      var flexible := IsValidURLFlexible(parse, trimmed);
      if flexible.isValid then Detection(UrlWithoutProtocol, true, flexible.url)
      else Detection(NotALink, false, trimmed)
  }

  /** The `ip` rule is dead code: whatever the parser, `detectLinkType` never
      returns type `ip`, since the domain rule before it accepts every dotted quad. */
  lemma DetectNeverIp(parse: UrlParser, s: string)
    ensures DetectLinkType(parse, s).linkType != Ip
  {
    var t := Trim(s);
    if IsValidIP(t) {
      IpIsDomain(t);
    }
  }

  /** A string of dots, letters, digits and hyphens has no whitespace to trim. */
  lemma TrimOfDomain(h: string)
    requires IsValidDomain(h)
    ensures Trim(h) == h
    ensures ':' !in h
  {
    var labels := Split(h, '.');
    JoinSplit(h, '.');
    assert h != [] by { assert LabelPattern(labels[0]); }
    LdhJoinHasNoWhitespace(labels);
    TrimUnchanged(h);
  }

  lemma {:induction false} LdhJoinHasNoWhitespace(labels: seq<string>)
    requires forall i :: 0 <= i < |labels| ==> LabelPattern(labels[i])
    ensures forall j :: 0 <= j < |Join(labels, '.')| ==>
              !IsWhitespace(Join(labels, '.')[j]) && Join(labels, '.')[j] != ':'
    ensures |labels| >= 1 ==> Join(labels, '.') != []
  {
    if |labels| > 1 {
      LdhJoinHasNoWhitespace(labels[1..]);
      var p := labels[0];
      assert forall j :: 0 <= j < |p| ==> IsLdh(p[j]);
    } else if |labels| == 1 {
      var p := labels[0];
      assert forall j :: 0 <= j < |p| ==> IsLdh(p[j]);
    }
  }

  /** With a parser that needs a scheme, a domain is classified as `domain`
      with `https://` in front. */
  lemma DetectDomain(parse: UrlParser, h: string)
    requires NeedsScheme(parse)
    requires IsValidDomain(h)
    ensures DetectLinkType(parse, h) == Detection(Domain, true, "https://" + h)
  {
    TrimOfDomain(h);
    assert parse(h).Threw?;
  }

  /** So with such a parser a dotted quad is a `domain` too, never an `ip`. */
  lemma DetectDottedQuad(parse: UrlParser, ip: string)
    requires NeedsScheme(parse)
    requires IsValidIP(ip)
    ensures DetectLinkType(parse, ip) == Detection(Domain, true, "https://" + ip)
  {
    IpIsDomain(ip);
    DetectDomain(parse, ip);
  }

  // ---------------------------------------------------------------------------
  // validateURLSafely
  // ---------------------------------------------------------------------------

  datatype SafetyError =
    | ParseError(message: string)
    | InvalidProtocol
    | SuspiciousHostname
    | HostnameTooLong

  /** The `error` strings the source reports. */
  function ErrorMessage(e: SafetyError): string {
    match e
    case ParseError(message) => message
    case InvalidProtocol => "Invalid protocol"
    case SuspiciousHostname => "Suspicious hostname"
    case HostnameTooLong => "Hostname too long"
  }

  /** A parse error reports the parser's own message; the three later checks
      report three distinct fixed messages. */
  lemma ErrorMessageDistinct(a: SafetyError, b: SafetyError)
    ensures a.ParseError? ==> ErrorMessage(a) == a.message
    ensures !a.ParseError? && !b.ParseError? ==> (ErrorMessage(a) == ErrorMessage(b) <==> a == b)
  {
  }

  datatype Validation =
    | Valid(url: string, protocol: string, hostname: string, pathname: string)
    | Invalid(error: SafetyError)

  /** The hostname check of `validateURLSafely`: `..` anywhere or a leading `.`. */
  predicate IsSuspiciousHostname(h: string) {
    Includes(h, "..") || StartsWith(h, ".")
  }

  const MaxHostnameLength := 253

  /** `validateURLSafely`: parse, then the protocol allow-list, then the
      suspicious-hostname check, then the hostname length, in that order. */
  function ValidateURLSafely(parse: UrlParser, s: string): (r: Validation)
    ensures r.Invalid? && r.error.ParseError? <==> !IsValidURL(parse, s)
    ensures !IsValidURL(parse, s) ==> r == Invalid(ParseError(parse(s).message))
    ensures r == Invalid(InvalidProtocol) <==> IsValidURL(parse, s) && !IsValidURLWithProtocol(parse, s)
    ensures r == Invalid(SuspiciousHostname) <==>
              IsValidURLWithProtocol(parse, s) && IsSuspiciousHostname(parse(s).url.hostname)
    ensures r == Invalid(HostnameTooLong) <==>
              && IsValidURLWithProtocol(parse, s) && !IsSuspiciousHostname(parse(s).url.hostname)
              && Utf16Length(parse(s).url.hostname) > MaxHostnameLength
    ensures r.Valid? ==>
              && IsValidURLWithProtocol(parse, s)
              && r.protocol in AllowedProtocols
              && !IsSuspiciousHostname(r.hostname)
              && Utf16Length(r.hostname) <= MaxHostnameLength
              && r == Valid(parse(s).url.href, parse(s).url.protocol, parse(s).url.hostname, parse(s).url.pathname)
  {
    match parse(s)
    case Threw(message) => Invalid(ParseError(message))
    case Parsed(url) =>
      if url.protocol !in AllowedProtocols then Invalid(InvalidProtocol)
      else if Includes(url.hostname, "..") || StartsWith(url.hostname, ".") then Invalid(SuspiciousHostname)
      else if Utf16Length(url.hostname) > MaxHostnameLength then Invalid(HostnameTooLong)
      else Valid(url.href, url.protocol, url.hostname, url.pathname)
  }

  // ---------------------------------------------------------------------------
  // validateMultipleURLs
  // ---------------------------------------------------------------------------

  /** `{original: url, ...detectLinkType(url)}`. */
  datatype BatchEntry = BatchEntry(original: string, linkType: LinkType, isValid: bool, value: string)

  function Entry(url: string, d: Detection): BatchEntry {
    BatchEntry(url, d.linkType, d.isValid, d.value)
  }

  /** `validateMultipleURLs`: `detectLinkType` on every string, in order, with
      nothing skipped, each result tagged with the string it came from. */
  function ValidateMultipleURLs(parse: UrlParser, urls: seq<string>): (r: seq<BatchEntry>)
    ensures |r| == |urls|
    ensures forall i :: 0 <= i < |urls| ==> r[i] == Entry(urls[i], DetectLinkType(parse, urls[i]))
  {
    seq(|urls|, i requires 0 <= i < |urls| => Entry(urls[i], DetectLinkType(parse, urls[i])))
  }
}
