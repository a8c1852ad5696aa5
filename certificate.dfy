/**
 * Certificate field extraction: the lowercase hex rendering of a DER
 * certificate that is piped to openssl, the two regular expressions that pick
 * fields out of openssl's text output, and the certificate record those fields
 * are stored in.
 */
module Certificate {
  import opened Wrappers
  import opened Zip

  // ---------------------------------------------------------------------------
  // Hex rendering: `bytes.map { |b| b.to_s(16).rjust(2, '0') }.join`

  function HexDigit(d: int): (c: char)
    requires 0 <= d < 16
    ensures IsHexChar(c)
  {
    if d < 10 then ('0' as int + d) as char else ('a' as int + d - 10) as char
  }

  predicate IsHexChar(c: char) {
    '0' <= c <= '9' || 'a' <= c <= 'f'
  }

  /** `Integer#to_s(16)` on one byte: one digit below 16, two otherwise. */
  function ToS16(b: byte): string {
    if b < 16 then [HexDigit(b as int)]
    else [HexDigit(b as int / 16), HexDigit(b as int % 16)]
  }

  /** `String#rjust(2, '0')`. */
  function RJust2(s: string): string {
    if |s| < 2 then seq(2 - |s|, _ => '0') + s else s
  }

  /** One byte as the source renders it: always two digits, high nibble first. */
  function HexByte(b: byte): (r: string)
    ensures r == [HexDigit(b as int / 16), HexDigit(b as int % 16)]
  {
    assert b < 16 ==> b as int / 16 == 0 && HexDigit(0) == '0';
    RJust2(ToS16(b))
  }

  function Hex(bs: seq<byte>): (r: string)
    ensures |r| == 2 * |bs|
    ensures forall i :: 0 <= i < |r| ==> IsHexChar(r[i])
  {
    if bs == [] then [] else HexByte(bs[0]) + Hex(bs[1..])
  }

  function HexValue(c: char): (d: int)
    ensures 0 <= d < 16
  {
    if '0' <= c <= '9' then c as int - '0' as int
    else if 'a' <= c <= 'f' then c as int - 'a' as int + 10
    else if 'A' <= c <= 'F' then c as int - 'A' as int + 10
    else 0
  }

  /** `xxd -r -p` on a string of hex digit pairs: byte i is the value of digits 2i and 2i+1. */
  function XxdReverse(s: string): (r: seq<byte>)
    ensures |r| == |s| / 2
    ensures forall i :: 0 <= i < |r| ==> r[i] as int == HexValue(s[2 * i]) * 16 + HexValue(s[2 * i + 1])
  {
    if |s| < 2 then []
    else [(HexValue(s[0]) * 16 + HexValue(s[1])) as byte] + XxdReverse(s[2..])
  }

  lemma HexDigitValue(d: int)
    requires 0 <= d < 16
    ensures HexValue(HexDigit(d)) == d
  {
  }

  /** `xxd -r -p` undoes the source's hex rendering: openssl sees the original DER bytes. */
  lemma {:induction false} XxdReverseHex(bs: seq<byte>)
    ensures XxdReverse(Hex(bs)) == bs
  {
    if bs != [] {
      var b := bs[0];
      var h := Hex(bs);
      assert h == HexByte(b) + Hex(bs[1..]);
      assert h[2..] == Hex(bs[1..]);
      HexDigitValue(b as int / 16);
      HexDigitValue(b as int % 16);
      XxdReverseHex(bs[1..]);
    }
  }

  // ---------------------------------------------------------------------------
  // The subject regex  KEY=([^=]*)(, [A-Z]+=|$)
  // Ruby tries start positions from the left; at a start the greedy capture is
  // shortened one character at a time until the tail alternative matches.

  predicate IsUpper(c: char) {
    'A' <= c <= 'Z'
  }

  /** `[A-Z]+=` matches at position p. */
  predicate UpperRunThenEq(s: string, p: nat)
    decreases |s| - p
  {
    && p + 1 < |s|
    && IsUpper(s[p])
    && (s[p + 1] == '=' || UpperRunThenEq(s, p + 1))
  }

  /** `, [A-Z]+=` matches at position p. */
  predicate NextKeyAt(s: string, p: nat) {
    p + 2 <= |s| && s[p] == ',' && s[p + 1] == ' ' && UpperRunThenEq(s, p + 2)
  }

  /** Ruby's `$`: the end of the string or just before a newline. */
  predicate EndOfLine(s: string, p: nat)
    requires p <= |s|
  {
    p == |s| || s[p] == '\n'
  }

  /** The tail alternative `(, [A-Z]+=|$)` matches at p. */
  predicate FieldEnd(s: string, p: nat)
    requires p <= |s|
  {
    NextKeyAt(s, p) || EndOfLine(s, p)
  }

  /** `KEY=` stands at position i. */
  predicate KeyAt(s: string, key: string, i: nat) {
    i + |key| + 1 <= |s| && s[i..i + |key|] == key && s[i + |key|] == '='
  }

  /** The regex matches from start i with a capture of length n. */
  predicate IsFieldMatch(s: string, key: string, i: nat, n: nat) {
    var j := i + |key| + 1;
    && KeyAt(s, key, i)
    && j + n <= |s|
    && '=' !in s[j..j + n]
    && FieldEnd(s, j + n)
  }

  /** The match Ruby reports: the leftmost start, and at it the longest capture. */
  ghost predicate IsReportedMatch(s: string, key: string, i: nat, n: nat) {
    && IsFieldMatch(s, key, i, n)
    && (forall i': nat, n': nat :: i' < i ==> !IsFieldMatch(s, key, i', n'))
    && (forall n': nat :: n < n' ==> !IsFieldMatch(s, key, i, n'))
  }

  /** The length of the run of non-'=' characters from j (what `[^=]*` first takes). */
  function NoEqRun(s: string, j: nat): (n: nat)
    requires j <= |s|
    ensures j + n <= |s| && '=' !in s[j..j + n]
    ensures j + n == |s| || s[j + n] == '='
    decreases |s| - j
  {
    if j == |s| || s[j] == '=' then 0
    else
      var n := 1 + NoEqRun(s, j + 1);
      assert s[j..j + n] == [s[j]] + s[j + 1..j + n];
      n
  }

  /** Shortening the capture from length n until the tail matches. */
  function Backtrack(s: string, j: nat, n: nat): (r: Option<nat>)
    requires j + n <= |s|
    ensures r.Some? ==> r.value <= n && FieldEnd(s, j + r.value)
    ensures r.Some? ==> forall p :: j + r.value < p <= j + n ==> !FieldEnd(s, p)
    ensures r.None? ==> forall p :: j <= p <= j + n ==> !FieldEnd(s, p)
    decreases n
  {
    if FieldEnd(s, j + n) then Some(n)
    else if n == 0 then None
    else Backtrack(s, j, n - 1)
  }

  /** The capture length the regex yields from start i, if it matches there. */
  function FieldMatchAt(s: string, key: string, i: nat): (r: Option<nat>)
    ensures r.Some? ==> IsFieldMatch(s, key, i, r.value)
    ensures r.Some? ==> forall n': nat :: r.value < n' ==> !IsFieldMatch(s, key, i, n')
    ensures r.None? ==> forall n': nat :: !IsFieldMatch(s, key, i, n')
  {
    if KeyAt(s, key, i) then
      var j := i + |key| + 1;
      var run := NoEqRun(s, j);
      var r := Backtrack(s, j, run);
      forall n': nat | run < n'
        ensures !IsFieldMatch(s, key, i, n')
      {
        if j + n' <= |s| {
          assert s[j..j + n'][run] == '=';
        }
      }
      r
    else None
  }

  /** Trying start positions from i rightwards. */
  function FieldSearch(s: string, key: string, i: nat): (r: Option<(nat, nat)>)
    ensures r.Some? ==> i <= r.value.0 && IsFieldMatch(s, key, r.value.0, r.value.1)
    ensures r.Some? ==> forall n': nat :: r.value.1 < n' ==> !IsFieldMatch(s, key, r.value.0, n')
    ensures r.Some? ==> forall i': nat, n': nat :: i <= i' < r.value.0 ==> !IsFieldMatch(s, key, i', n')
    ensures r.None? ==> forall i': nat, n': nat :: i <= i' ==> !IsFieldMatch(s, key, i', n')
    decreases |s| - i
  {
    if i >= |s| then None
    else
      match FieldMatchAt(s, key, i)
      case Some(n) => Some((i, n))
      case None => FieldSearch(s, key, i + 1)
  }

  /**
   * `cert_extract_issuer_parameterized(subject, key)`: the capture of the
   * match Ruby reports, or None where the source raises.
   */
  function IssuerField(subject: string, key: string): (r: Option<string>)
    ensures r.Some? ==> '=' !in r.value
  {
    match FieldSearch(subject, key, 0)
    case None => None
    case Some((i, n)) => Some(subject[i + |key| + 1..i + |key| + 1 + n])
  }

  /** IssuerField is exactly the capture of Ruby's leftmost, greedy match; None exactly when nothing matches. */
  lemma IssuerFieldIsReportedMatch(subject: string, key: string)
    ensures IssuerField(subject, key).None? <==> forall i: nat, n: nat :: !IsFieldMatch(subject, key, i, n)
    ensures IssuerField(subject, key).Some? ==>
      exists i: nat, n: nat :: IsReportedMatch(subject, key, i, n)
                  && IssuerField(subject, key).value == subject[i + |key| + 1..i + |key| + 1 + n]
  {
    match FieldSearch(subject, key, 0)
    case None =>
    case Some((i, n)) =>
      assert IsReportedMatch(subject, key, i, n);
  }

  /** Ruby reports at most one match. */
  lemma ReportedMatchUnique(s: string, key: string, i1: nat, n1: nat, i2: nat, n2: nat)
    requires IsReportedMatch(s, key, i1, n1) && IsReportedMatch(s, key, i2, n2)
    ensures i1 == i2 && n1 == n2
  {
  }

  // ---------------------------------------------------------------------------
  // The date regex  =(.*)$
  // `.` stops at a newline and `$` matches before one, so the capture runs from
  // the first '=' to the end of that line.

  /** The regex matches with its '=' at i and capture v. */
  predicate IsDateMatch(s: string, i: nat, v: string) {
    && i < |s| && s[i] == '=' && '=' !in s[..i]
    && i + 1 + |v| <= |s| && s[i + 1..i + 1 + |v|] == v
    && '\n' !in v
    && EndOfLine(s, i + 1 + |v|)
  }

  function IndexOf(s: string, c: char): (k: nat)
    ensures k <= |s| && c !in s[..k] && (k < |s| ==> s[k] == c)
  {
    if s == [] || s[0] == c then 0
    else
      var k := 1 + IndexOf(s[1..], c);
      assert s[..k] == [s[0]] + s[1..][..k - 1];
      k
  }

  function LineEnd(s: string, j: nat): (k: nat)
    requires j <= |s|
    ensures j <= k <= |s| && '\n' !in s[j..k] && EndOfLine(s, k)
    decreases |s| - j
  {
    if j == |s| || s[j] == '\n' then j
    else
      var k := LineEnd(s, j + 1);
      assert s[j..k] == [s[j]] + s[j + 1..k];
      k
  }

  /** `cert_extract_date(s)`: the rest of the line after the first '=', or None where the source raises. */
  function DateField(s: string): (r: Option<string>)
    ensures r.None? <==> '=' !in s
    ensures r.Some? ==> exists i: nat :: IsDateMatch(s, i, r.value)
  {
    var i := IndexOf(s, '=');
    if i == |s| then
      assert s[..i] == s;
      None
    else
      var v := s[i + 1..LineEnd(s, i + 1)];
      assert IsDateMatch(s, i, v);
      Some(v)
  }

  /** The match DateField reports is the only one. */
  lemma DateMatchUnique(s: string, i1: nat, v1: string, i2: nat, v2: string)
    requires IsDateMatch(s, i1, v1) && IsDateMatch(s, i2, v2)
    ensures i1 == i2 && v1 == v2
  {
  }

  /** On openssl's `notBefore=<date>` line the date comes back whole. */
  lemma DateLineField(tag: string, date: string, rest: string)
    requires '=' !in tag && '\n' !in date
    requires rest == [] || rest[0] == '\n'
    ensures DateField(tag + "=" + date + rest) == Some(date)
  {
    var s := tag + "=" + date + rest;
    var i := |tag|;
    assert s[..i] == tag;
    assert s[i + 1..i + 1 + |date|] == date;
    assert IsDateMatch(s, i, date);
    var i': nat :| IsDateMatch(s, i', DateField(s).value);
    DateMatchUnique(s, i, date, i', DateField(s).value);
  }

  // ---------------------------------------------------------------------------
  // The certificate record and how the two extractors fill it

  /**
   * `collect_cert_info`'s hash.  The six fields start as nil (None) and are
   * always present; `errorMsg` is None while no extraction has failed, which is
   * when the source's hash has no :error_msg key.
   */
  datatype CertInfo = CertInfo(
    issuerRaw: Option<string>,
    cn: Option<string>,
    uid: Option<string>,
    org: Option<string>,
    expirationDate: Option<string>,
    creationDate: Option<string>,
    errorMsg: Option<string>)

  const EmptyCertInfo := CertInfo(None, None, None, None, None, None, None)

  const OpensslHint := ". Please check the openssl version installed on your system"

  function FieldErrorMessage(param: string): string {
    "Could not retrieve field '" + param + "' from certificate info" + OpensslHint
  }

  const DateErrorMessage := "Could not retrieve date from certificate info" + OpensslHint

  /**
   * `cert_extract_issuer`: issuer_raw, cn, uid and org are set in that order;
   * the first field that cannot be extracted stops the sequence and sets the
   * error, so the earlier fields keep their new values and the later ones stay
   * as they were.
   */
  function WithIssuer(subject: string, info: CertInfo): (r: CertInfo)
    ensures r.issuerRaw == Some(subject)
    ensures r.cn == (if IssuerField(subject, "CN").Some? then IssuerField(subject, "CN") else info.cn)
    ensures r.uid == (if IssuerField(subject, "CN").Some? && IssuerField(subject, "UID").Some?
                      then IssuerField(subject, "UID") else info.uid)
    ensures r.org == (if IssuerField(subject, "CN").Some? && IssuerField(subject, "UID").Some?
                         && IssuerField(subject, "O").Some?
                      then IssuerField(subject, "O") else info.org)
    ensures r.errorMsg ==
      if IssuerField(subject, "CN").None? then Some(FieldErrorMessage("CN"))
      else if IssuerField(subject, "UID").None? then Some(FieldErrorMessage("UID"))
      else if IssuerField(subject, "O").None? then Some(FieldErrorMessage("O"))
      else info.errorMsg
    ensures r.expirationDate == info.expirationDate && r.creationDate == info.creationDate
  {
    var withRaw := info.(issuerRaw := Some(subject));
    match IssuerField(subject, "CN")
    case None => withRaw.(errorMsg := Some(FieldErrorMessage("CN")))
    case Some(cn) =>
      var withCn := withRaw.(cn := Some(cn));
      match IssuerField(subject, "UID")
      case None => withCn.(errorMsg := Some(FieldErrorMessage("UID")))
      case Some(uid) =>
        var withUid := withCn.(uid := Some(uid));
        match IssuerField(subject, "O")
        case None => withUid.(errorMsg := Some(FieldErrorMessage("O")))
        case Some(org) => withUid.(org := Some(org))
  }

  /**
   * `cert_extract_dates`: the start date goes to expiration_date and the end
   * date to creation_date, in that order, with the same stop-at-first-failure
   * rule.
   */
  function WithDates(startLine: string, endLine: string, info: CertInfo): (r: CertInfo)
    ensures r.expirationDate == (if DateField(startLine).Some? then DateField(startLine) else info.expirationDate)
    ensures r.creationDate == (if DateField(startLine).Some? && DateField(endLine).Some?
                               then DateField(endLine) else info.creationDate)
    ensures r.errorMsg == (if '=' in startLine && '=' in endLine then info.errorMsg else Some(DateErrorMessage))
    ensures r.issuerRaw == info.issuerRaw && r.cn == info.cn && r.uid == info.uid && r.org == info.org
  {
    match DateField(startLine)
    case None => info.(errorMsg := Some(DateErrorMessage))
    case Some(notBefore) =>
      var withStart := info.(expirationDate := Some(notBefore));
      match DateField(endLine)
      case None => withStart.(errorMsg := Some(DateErrorMessage))
      case Some(notAfter) => withStart.(creationDate := Some(notAfter))
  }

  /** `cert_extract_issuer` as the source writes it, updating the record it is handed. */
  method ExtractIssuer(subject: string, info: CertInfo) returns (result: CertInfo)
    ensures result == WithIssuer(subject, info)
  {
    result := info;
    result := result.(issuerRaw := Some(subject));
    var cn := IssuerField(subject, "CN");
    if cn.None? {
      result := result.(errorMsg := Some(FieldErrorMessage("CN")));
      return;
    }
    result := result.(cn := cn);
    var uid := IssuerField(subject, "UID");
    if uid.None? {
      result := result.(errorMsg := Some(FieldErrorMessage("UID")));
      return;
    }
    result := result.(uid := uid);
    var org := IssuerField(subject, "O");
    if org.None? {
      result := result.(errorMsg := Some(FieldErrorMessage("O")));
      return;
    }
    result := result.(org := org);
  }

  /** `cert_extract_dates` as the source writes it. */
  method ExtractDates(startLine: string, endLine: string, info: CertInfo) returns (result: CertInfo)
    ensures result == WithDates(startLine, endLine, info)
  {
    result := info;
    var notBefore := DateField(startLine);
    if notBefore.None? {
      result := result.(errorMsg := Some(DateErrorMessage));
      return;
    }
    result := result.(expirationDate := notBefore);
    var notAfter := DateField(endLine);
    if notAfter.None? {
      result := result.(errorMsg := Some(DateErrorMessage));
      return;
    }
    result := result.(creationDate := notAfter);
  }
}
