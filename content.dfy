/**
 * The `content` hashes of the Info.plist and provisioning records: the two
 * `plist.each` folds of analyzer.rb, the certificate record stored under
 * :cert_info, and the loops that compute them.
 */
module Content {
  import opened Wrappers
  import opened Zip
  import opened Plist
  import opened Certificate
  import opened External

  const DeveloperCertificates := "DeveloperCertificates"

  // ---------------------------------------------------------------------------
  // The certificate record

  /**
   * `base64data.first`, when it is a certificate's bytes; anything else makes
   * `each_byte` raise.
   */
  function FirstCertificate(certs: Value): (r: Option<seq<byte>>)
    ensures r.Some? <==> certs.Array? && certs.items != [] && certs.items[0].Data?
    ensures r.Some? ==> r.value == certs.items[0].bytes
  {
    match certs
    case Array(items) => if items != [] && items[0].Data? then Some(items[0].bytes) else None
    case _ => None
  }

  /** The record collect_cert_info fills from the certificate `der`. */
  function CertRecord(tools: Tools, der: seq<byte>): CertInfo {
    WithDates(tools.x509StartDate(der), tools.x509EndDate(der),
              WithIssuer(tools.x509Subject(der), EmptyCertInfo))
  }

  /**
   * collect_cert_info: the bytes are sent through `xxd -r -p` as hex, which
   * hands openssl exactly the first certificate; None when collect_cert_info raises.
   */
  function CertInfoOf(tools: Tools, certs: Value): (r: Option<CertInfo>)
    ensures r.None? <==> FirstCertificate(certs).None?
    ensures r.Some? ==> r.value == CertRecord(tools, FirstCertificate(certs).value)
  {
    match FirstCertificate(certs)
    case None => None
    case Some(der) =>
      var raw := XxdReverse(Hex(der));
      XxdReverseHex(der);
      Some(WithDates(tools.x509StartDate(raw), tools.x509EndDate(raw),
                     WithIssuer(tools.x509Subject(raw), EmptyCertInfo)))
  }

  /** Only the first certificate of DeveloperCertificates is looked at. */
  lemma CertInfoUsesFirstOnly(tools: Tools, der: seq<byte>, rest: seq<Value>)
    ensures CertInfoOf(tools, Array([Data(der)] + rest)) == Some(CertRecord(tools, der))
  {
  }

  /**
   * The six record keys start out nil: a field the extraction did not reach
   * stays nil, and a failing issuer field leaves the dates to cert_extract_dates.
   */
  lemma CertRecordFields(tools: Tools, der: seq<byte>)
    ensures var r := CertRecord(tools, der);
      && r.issuerRaw == Some(tools.x509Subject(der))
      && (IssuerField(tools.x509Subject(der), "CN").None? ==> r.cn.None? && r.uid.None? && r.org.None?)
      && r.expirationDate == DateField(tools.x509StartDate(der))
      && (DateField(tools.x509StartDate(der)).Some? ==> r.creationDate == DateField(tools.x509EndDate(der)))
      && (DateField(tools.x509StartDate(der)).None? ==> r.creationDate.None?)
  {
  }

  /** collect_cert_info as the source writes it: a record of nils, then the two extractors. */
  method CollectCertInfo(tools: Tools, certs: Value) returns (r: Option<CertInfo>)
    ensures r == CertInfoOf(tools, certs)
  {
    var result := EmptyCertInfo;
    var first := FirstCertificate(certs);
    if first.None? {
      return None;
    }
    var dataAsHex := Hex(first.value);
    var der := XxdReverse(dataAsHex);
    result := ExtractIssuer(tools.x509Subject(der), result);
    result := ExtractDates(tools.x509StartDate(der), tools.x509EndDate(der), result);
    return Some(result);
  }

  // ---------------------------------------------------------------------------
  // The folds

  /** A pair collect_info_plist_info_with_path can store. */
  predicate IsInfoEntry(e: (Key, Field)) {
    e.0.Name? && e.1.Plain? && IsNormal(e.1.value)
  }

  /** The Info.plist fold: every pair stored as `result[:content][key] = Normalize(value)`. */
  function InfoContent(p: PlistDict): (r: Hash)
    ensures |r| <= |p|
    decreases |p|
  {
    if p == [] then []
    else
      var (k, v) := p[|p| - 1];
      Put(InfoContent(p[..|p| - 1]), Name(k), Plain(Normalize(v)))
  }

  /** As in a Ruby Hash, the last pair of the plist decides its key's value. */
  lemma InfoContentLastWins(p: PlistDict)
    requires p != []
    ensures Lookup(InfoContent(p), Name(p[|p| - 1].0)) == Some(Plain(Normalize(p[|p| - 1].1)))
  {
    var (k, v) := p[|p| - 1];
    PutLookup(InfoContent(p[..|p| - 1]), Name(k), Plain(Normalize(v)));
  }

  /** The Info.plist content never repeats a key and stores only normalised plist values. */
  lemma {:induction false} InfoContentWellFormed(p: PlistDict)
    ensures UniqueKeys(InfoContent(p))
    ensures forall i :: 0 <= i < |InfoContent(p)| ==> IsInfoEntry(InfoContent(p)[i])
    decreases |p|
  {
    if p != [] {
      var front := p[..|p| - 1];
      var (k, v) := p[|p| - 1];
      var h := InfoContent(front);
      InfoContentWellFormed(front);
      PutKeepsUniqueKeys(h, Name(k), Plain(Normalize(v)));
      PutPairs(h, Name(k), Plain(Normalize(v)));
      var r := InfoContent(p);
      forall i | 0 <= i < |r|
        ensures IsInfoEntry(r[i])
      {
        assert r[i] in r;
      }
    }
  }

  /** The Info.plist content has exactly the plist's keys, and no :cert_info. */
  lemma {:induction false} InfoContentKeys(p: PlistDict)
    ensures forall k :: Name(k) in Keys(InfoContent(p)) <==> k in Keys(p)
    ensures CertInfoKey !in Keys(InfoContent(p))
    decreases |p|
  {
    if p != [] {
      var front := p[..|p| - 1];
      var (k, v) := p[|p| - 1];
      InfoContentKeys(front);
      var h := InfoContent(front);
      assert InfoContent(p) == Put(h, Name(k), Plain(Normalize(v)));
      PutKeys(h, Name(k), Plain(Normalize(v)));
      assert Keys(p) == Keys(front) + [k];
    }
  }

  /** With distinct keys the content is the plist itself, normalised, in the same order. */
  lemma {:induction false} InfoContentInOrder(p: PlistDict)
    requires UniqueKeys(p)
    ensures |InfoContent(p)| == |p|
    ensures forall i :: 0 <= i < |p| ==> InfoContent(p)[i] == (Name(p[i].0), Plain(Normalize(p[i].1)))
    decreases |p|
  {
    if p != [] {
      var front := p[..|p| - 1];
      InfoContentInOrder(front);
      assert p[|p| - 1].0 !in Keys(front);
    }
  }

  /** A pair collect_provision_info_with_path can store. */
  predicate IsProvisionEntry(e: (Key, Field)) {
    (IsInfoEntry(e) && e.0.name != DeveloperCertificates) || (e.0.CertInfoKey? && e.1.Cert?)
  }

  /** collect_cert_info, as the function of the DeveloperCertificates value the fold applies. */
  function CertInfoFn(tools: Tools): Value -> Option<CertInfo> {
    v => CertInfoOf(tools, v)
  }

  /**
   * The provisioning-profile fold, `certInfo` standing for collect_cert_info:
   * DeveloperCertificates becomes :cert_info, everything else is stored as in
   * Info.plist; None when a certificate record raises, which the rescue turns
   * into a nil record.
   */
  function ProvisionFold(certInfo: Value -> Option<CertInfo>, p: PlistDict): (r: Option<Hash>)
    ensures r.Some? ==> |r.value| <= |p|
    decreases |p|
  {
    if p == [] then Some([])
    else
      var (k, v) := p[|p| - 1];
      match ProvisionFold(certInfo, p[..|p| - 1])
      case None => None
      case Some(h) =>
        if k == DeveloperCertificates then
          match certInfo(v)
          case None => None
          case Some(c) => Some(Put(h, CertInfoKey, Cert(c)))
        else
          Some(Put(h, Name(k), Plain(Normalize(v))))
  }

  /** The last pair of the profile, unless it is DeveloperCertificates, decides its key's value. */
  lemma ProvisionFoldLastWins(certInfo: Value -> Option<CertInfo>, p: PlistDict)
    requires p != [] && p[|p| - 1].0 != DeveloperCertificates && ProvisionFold(certInfo, p).Some?
    ensures Lookup(ProvisionFold(certInfo, p).value, Name(p[|p| - 1].0)) == Some(Plain(Normalize(p[|p| - 1].1)))
  {
    var (k, v) := p[|p| - 1];
    PutLookup(ProvisionFold(certInfo, p[..|p| - 1]).value, Name(k), Plain(Normalize(v)));
  }

  /** The profile content never repeats a key and holds plist values or the one certificate record. */
  lemma {:induction false} ProvisionFoldWellFormed(certInfo: Value -> Option<CertInfo>, p: PlistDict)
    requires ProvisionFold(certInfo, p).Some?
    ensures UniqueKeys(ProvisionFold(certInfo, p).value)
    ensures forall i :: 0 <= i < |ProvisionFold(certInfo, p).value| ==> IsProvisionEntry(ProvisionFold(certInfo, p).value[i])
    decreases |p|
  {
    if p != [] {
      var front := p[..|p| - 1];
      var (k, v) := p[|p| - 1];
      var h := ProvisionFold(certInfo, front).value;
      ProvisionFoldWellFormed(certInfo, front);
      var key := if k == DeveloperCertificates then CertInfoKey else Name(k);
      var f := if k == DeveloperCertificates then Cert(certInfo(v).value) else Plain(Normalize(v));
      assert ProvisionFold(certInfo, p).value == Put(h, key, f);
      PutKeepsUniqueKeys(h, key, f);
      PutPairs(h, key, f);
      var r := ProvisionFold(certInfo, p).value;
      forall i | 0 <= i < |r|
        ensures IsProvisionEntry(r[i])
      {
        assert r[i] in r;
      }
    }
  }

  lemma ProvisionWithoutCertificatesIs(certInfo: Value -> Option<CertInfo>, p: PlistDict)
    ensures DeveloperCertificates !in Keys(p) ==> ProvisionFold(certInfo, p) == Some(InfoContent(p))
  {
    if DeveloperCertificates !in Keys(p) {
      ProvisionWithoutCertificates(certInfo, p);
    }
  }

  /** The content of collect_provision_info_with_path for the decoded profile p. */
  function ProvisionContent(tools: Tools, p: PlistDict): (r: Option<Hash>)
    ensures DeveloperCertificates !in Keys(p) ==> r == Some(InfoContent(p))
  {
    ProvisionWithoutCertificatesIs(CertInfoFn(tools), p);
    ProvisionFold(CertInfoFn(tools), p)
  }

  /**
   * DeveloperCertificates is replaced by :cert_info and no other key is added
   * or dropped.
   */
  lemma {:induction false} ProvisionContentKeys(certInfo: Value -> Option<CertInfo>, p: PlistDict)
    requires ProvisionFold(certInfo, p).Some?
    ensures forall k :: Name(k) in Keys(ProvisionFold(certInfo, p).value) <==> k in Keys(p) && k != DeveloperCertificates
    ensures CertInfoKey in Keys(ProvisionFold(certInfo, p).value) <==> DeveloperCertificates in Keys(p)
    decreases |p|
  {
    if p != [] {
      var front := p[..|p| - 1];
      var (k, v) := p[|p| - 1];
      ProvisionContentKeys(certInfo, front);
      var h := ProvisionFold(certInfo, front).value;
      var key := if k == DeveloperCertificates then CertInfoKey else Name(k);
      var f := if k == DeveloperCertificates then Cert(certInfo(v).value) else Plain(Normalize(v));
      assert ProvisionFold(certInfo, p).value == Put(h, key, f);
      PutKeys(h, key, f);
      assert Keys(p) == Keys(front) + [k];
      forall k' | Name(k') in Keys(ProvisionFold(certInfo, p).value)
        ensures k' in Keys(p) && k' != DeveloperCertificates
      {
        assert Name(k') in Keys(h) || Name(k') == key;
      }
      forall k' | k' in Keys(p) && k' != DeveloperCertificates
        ensures Name(k') in Keys(ProvisionFold(certInfo, p).value)
      {
        assert k' in Keys(front) || k' == k;
      }
    }
  }

  /** DeveloperCertificates is the only key the provisioning fold treats differently. */
  lemma {:induction false} ProvisionWithoutCertificates(certInfo: Value -> Option<CertInfo>, p: PlistDict)
    requires DeveloperCertificates !in Keys(p)
    ensures ProvisionFold(certInfo, p) == Some(InfoContent(p))
    decreases |p|
  {
    if p != [] {
      var front := p[..|p| - 1];
      assert Keys(p) == Keys(front) + [p[|p| - 1].0];
      ProvisionWithoutCertificates(certInfo, front);
    }
  }

  /**
   * The pair the profile fold stores for the plist pair kv: the certificate
   * record under :cert_info for DeveloperCertificates, the normalised value
   * under the same key otherwise.
   */
  predicate ProvisionPairFor(certInfo: Value -> Option<CertInfo>, kv: (string, Value), e: (Key, Field)) {
    if kv.0 == DeveloperCertificates then certInfo(kv.1).Some? && e == (CertInfoKey, Cert(certInfo(kv.1).value))
    else e == (Name(kv.0), Plain(Normalize(kv.1)))
  }

  /** With distinct keys the profile content follows the plist pair by pair, in the same order. */
  lemma {:induction false} ProvisionContentInOrder(certInfo: Value -> Option<CertInfo>, p: PlistDict)
    requires UniqueKeys(p) && ProvisionFold(certInfo, p).Some?
    ensures |ProvisionFold(certInfo, p).value| == |p|
    ensures forall i :: 0 <= i < |p| ==> ProvisionPairFor(certInfo, p[i], ProvisionFold(certInfo, p).value[i])
    decreases |p|
  {
    if p != [] {
      var front := p[..|p| - 1];
      var (k, v) := p[|p| - 1];
      assert k !in Keys(front);
      ProvisionContentInOrder(certInfo, front);
      ProvisionContentKeys(certInfo, front);
      var h := ProvisionFold(certInfo, front).value;
      var key := if k == DeveloperCertificates then CertInfoKey else Name(k);
      var f := if k == DeveloperCertificates then Cert(certInfo(v).value) else Plain(Normalize(v));
      assert key !in Keys(h);
      assert ProvisionFold(certInfo, p).value == h + [(key, f)];
      forall i | 0 <= i < |p|
        ensures ProvisionPairFor(certInfo, p[i], ProvisionFold(certInfo, p).value[i])
      {
        if i < |front| {
          assert p[i] == front[i];
        }
      }
    }
  }

  /** The provisioning record is nil exactly when some DeveloperCertificates value cannot be read. */
  lemma {:induction false} ProvisionFails(certInfo: Value -> Option<CertInfo>, p: PlistDict)
    ensures ProvisionFold(certInfo, p).None? <==>
      exists i :: 0 <= i < |p| && p[i].0 == DeveloperCertificates && certInfo(p[i].1).None?
    decreases |p|
  {
    if p != [] {
      var front := p[..|p| - 1];
      ProvisionFails(certInfo, front);
      if ProvisionFold(certInfo, front).None? {
        var i :| 0 <= i < |front| && front[i].0 == DeveloperCertificates && certInfo(front[i].1).None?;
        assert p[i] == front[i];
      } else {
        forall i | 0 <= i < |p| - 1
          ensures !(p[i].0 == DeveloperCertificates && certInfo(p[i].1).None?)
        {
          assert p[i] == front[i];
        }
      }
    }
  }

  /** The Info.plist loop: one `result[:content][key] = ...` per pair, in order. */
  method FillInfoContent(p: PlistDict) returns (content: Hash)
    ensures content == InfoContent(p)
  {
    content := [];
    var i := 0;
    while i < |p|
      invariant 0 <= i <= |p|
      invariant content == InfoContent(p[..i])
    {
      var (key, value) := p[i];
      var parseValue := if IsContainer(value) then value else Str(ToS(value));
      assert p[..i + 1][..i] == p[..i];
      content := Put(content, Name(key), Plain(parseValue));
      i := i + 1;
    }
    assert p[..|p|] == p;
  }

  /** A failure in a prefix of the profile fails the whole fold. */
  lemma {:induction false} ProvisionPrefixFails(certInfo: Value -> Option<CertInfo>, p: PlistDict, i: nat)
    requires i <= |p| && ProvisionFold(certInfo, p[..i]).None?
    ensures ProvisionFold(certInfo, p).None?
    decreases |p| - i
  {
    if i < |p| {
      assert p[..i + 1][..i] == p[..i];
      ProvisionPrefixFails(certInfo, p, i + 1);
    } else {
      assert p[..i] == p;
    }
  }

  /** The provisioning loop: `next` after :cert_info, and a raise ends it with a nil record. */
  method FillProvisionContent(tools: Tools, p: PlistDict) returns (r: Option<Hash>)
    ensures r == ProvisionContent(tools, p)
  {
    var content: Hash := [];
    var i := 0;
    while i < |p|
      invariant 0 <= i <= |p|
      invariant ProvisionFold(CertInfoFn(tools), p[..i]) == Some(content)
    {
      var (key, value) := p[i];
      assert p[..i + 1][..i] == p[..i];
      if key == DeveloperCertificates {
        var certInfo := CollectCertInfo(tools, value);
        if certInfo.None? {
          ProvisionPrefixFails(CertInfoFn(tools), p, i + 1);
          return None;
        }
        content := Put(content, CertInfoKey, Cert(certInfo.value));
        i := i + 1;
        continue;
      }
      var parseValue := if IsContainer(value) then value else Str(ToS(value));
      content := Put(content, Name(key), Plain(parseValue));
      i := i + 1;
    }
    assert p[..|p|] == p;
    return Some(content);
  }
}
