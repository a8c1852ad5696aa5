/**
 * What each `collect_*` method of the analyzer returns, as functions of the
 * archive (None while it is not open), the external tools and the IPA path.
 * A Ruby `raise` is Raised, a rescued failure that yields nil is Ok(None).
 */
module Collectors {
  import opened Wrappers
  import opened Zip
  import opened Plist
  import opened External
  import opened Content

  /** A `{ path_in_ipa:, content: }` record. */
  datatype Metadata = Metadata(pathInIpa: Option<string>, content: Hash)

  /** One element of collect_frameworks_info's content list. */
  datatype FrameworkInfo = FrameworkInfo(filename: string, content: Hash)

  datatype FrameworksInfo = FrameworksInfo(pathInIpa: string, content: seq<FrameworkInfo>)

  /** One app extension (or watch app) and the extensions nested in its PlugIns folder. */
  datatype BundleNode = BundleNode(
    pathInIpa: string,
    mobileprovision: Hash,
    entitlements: Hash,
    infoPlist: Hash,
    plugins: seq<BundleNode>)

  // ---------------------------------------------------------------------------
  // Info.plist and embedded.mobileprovision

  /** collect_info_plist_info_with_path(path). */
  function InfoPlistSpec(zip: Option<ZipFile>, tools: Tools, ipaPath: string, path: string)
    : (r: Outcome<Option<Metadata>>)
    ensures zip.None? <==> r == Raised(NotOpen)
    ensures zip.Some? ==> (r.Raised? <==> !HasEntry(zip.value, path))
    ensures r.Raised? ==> r.error == NotOpen || r.error == InfoPlistNotFound(ipaPath)
  {
    match zip
    case None => Raised(NotOpen)
    case Some(z) =>
      match FindEntry(z, path)
      case None => Raised(InfoPlistNotFound(ipaPath))
      case Some(entry) =>
        match entry.data
        case None => Ok(None)
        case Some(bytes) =>
          match tools.parsePlistFile(bytes)
          case None => Ok(None)
          case Some(plist) => Ok(Some(Metadata(Some(entry.name), InfoContent(plist))))
  }

  /** An Info.plist record's path is the name of the archive entry found. */
  lemma InfoPlistRecordPath(z: ZipFile, tools: Tools, ipaPath: string, path: string)
    requires InfoPlistSpec(Some(z), tools, ipaPath, path).Ok?
    requires InfoPlistSpec(Some(z), tools, ipaPath, path).value.Some?
    ensures var m := InfoPlistSpec(Some(z), tools, ipaPath, path).value.value;
      exists e :: e in z.entries && Chomp(e.name) == Chomp(path) && m.pathInIpa == Some(e.name)
  {
    var e := FindEntry(z, path).value;
    assert e in z.entries && Chomp(e.name) == Chomp(path);
  }

  /** A readable Info.plist gives a record whose content is its normalised pairs. */
  lemma InfoPlistDecoded(z: ZipFile, tools: Tools, ipaPath: string, path: string, e: Entry, bytes: seq<byte>, plist: PlistDict)
    requires FindEntry(z, path) == Some(e) && e.data == Some(bytes) && tools.parsePlistFile(bytes) == Some(plist)
    requires UniqueKeys(plist)
    ensures var r := InfoPlistSpec(Some(z), tools, ipaPath, path);
      && r.Ok? && r.value.Some? && r.value.value.pathInIpa == Some(e.name)
      && |r.value.value.content| == |plist|
      && forall i :: 0 <= i < |plist| ==>
           r.value.value.content[i] == (Name(plist[i].0), Plain(Normalize(plist[i].1)))
  {
    InfoContentInOrder(plist);
  }

  /** A failed extraction or decode is answered with nil rather than raised. */
  lemma InfoPlistDecodeFailure(z: ZipFile, tools: Tools, ipaPath: string, path: string, e: Entry)
    requires FindEntry(z, path) == Some(e)
    requires e.data.None? || tools.parsePlistFile(e.data.value).None?
    ensures InfoPlistSpec(Some(z), tools, ipaPath, path) == Ok(None)
  {
  }

  const ProvisionFileName := "embedded.mobileprovision"

  /** collect_provision_info_with_path(path): the profile at path + "embedded.mobileprovision". */
  function ProvisionSpec(zip: Option<ZipFile>, tools: Tools, ipaPath: string, path: string)
    : (r: Outcome<Option<Metadata>>)
    ensures zip.None? <==> r == Raised(NotOpen)
    ensures zip.Some? ==> (r.Raised? <==> !HasEntry(zip.value, path + ProvisionFileName))
    ensures r.Raised? ==> r.error == NotOpen || r.error == ProvisionNotFound(ipaPath, path + ProvisionFileName)
  {
    match zip
    case None => Raised(NotOpen)
    case Some(z) =>
      var mobileprovisionPath := path + ProvisionFileName;
      match FindEntry(z, mobileprovisionPath)
      case None => Raised(ProvisionNotFound(ipaPath, mobileprovisionPath))
      case Some(entry) =>
        match entry.data
        case None => Ok(None)
        case Some(bytes) =>
          match tools.parsePlistText(tools.smimeUnwrap(bytes))
          case None => Ok(None)
          case Some(plist) =>
            match ProvisionContent(tools, plist)
            case None => Ok(None)
            case Some(content) => Ok(Some(Metadata(Some(entry.name), content)))
  }

  /**
   * A profile record's path is the name of the archive entry found, and its
   * content holds the certificate record in place of DeveloperCertificates.
   */
  lemma ProvisionRecord(z: ZipFile, tools: Tools, ipaPath: string, path: string)
    requires ProvisionSpec(Some(z), tools, ipaPath, path).Ok?
    requires ProvisionSpec(Some(z), tools, ipaPath, path).value.Some?
    ensures var m := ProvisionSpec(Some(z), tools, ipaPath, path).value.value;
      && (exists e :: e in z.entries && Chomp(e.name) == Chomp(path + ProvisionFileName) && m.pathInIpa == Some(e.name))
      && Name(DeveloperCertificates) !in Keys(m.content)
  {
    var entry := FindEntry(z, path + ProvisionFileName).value;
    var plist := tools.parsePlistText(tools.smimeUnwrap(entry.data.value)).value;
    ProvisionContentKeys(CertInfoFn(tools), plist);
  }

  /**
   * A readable profile gives nil exactly when collect_cert_info raises on a
   * DeveloperCertificates value; otherwise a record whose content follows the
   * plist pair by pair, with collect_cert_info's record under :cert_info.
   */
  lemma ProvisionDecoded(z: ZipFile, tools: Tools, ipaPath: string, path: string, e: Entry, bytes: seq<byte>, plist: PlistDict)
    requires FindEntry(z, path + ProvisionFileName) == Some(e) && e.data == Some(bytes)
    requires tools.parsePlistText(tools.smimeUnwrap(bytes)) == Some(plist)
    requires UniqueKeys(plist)
    ensures var r := ProvisionSpec(Some(z), tools, ipaPath, path);
      && r.Ok?
      && (r.value.None? <==>
          exists i :: 0 <= i < |plist| && plist[i].0 == DeveloperCertificates && CertInfoOf(tools, plist[i].1).None?)
      && (r.value.Some? ==>
          && r.value.value.pathInIpa == Some(e.name)
          && |r.value.value.content| == |plist|
          && forall i :: 0 <= i < |plist| ==>
               if plist[i].0 == DeveloperCertificates then
                 CertInfoOf(tools, plist[i].1).Some? &&
                 r.value.value.content[i] == (CertInfoKey, Cert(CertInfoOf(tools, plist[i].1).value))
               else r.value.value.content[i] == (Name(plist[i].0), Plain(Normalize(plist[i].1))))
  {
    ProvisionFails(CertInfoFn(tools), plist);
    if ProvisionContent(tools, plist).Some? {
      ProvisionContentInOrder(CertInfoFn(tools), plist);
      var content := ProvisionContent(tools, plist).value;
      forall i | 0 <= i < |plist|
        ensures ProvisionPairFor(CertInfoFn(tools), plist[i], content[i])
      {
      }
    }
  }

  /**
   * A failed extraction or decode, or a raise in collect_cert_info, is answered
   * with nil rather than raised.
   */
  lemma ProvisionDecodeFailure(z: ZipFile, tools: Tools, ipaPath: string, path: string, e: Entry)
    requires FindEntry(z, path + ProvisionFileName) == Some(e)
    requires || e.data.None?
             || tools.parsePlistText(tools.smimeUnwrap(e.data.value)).None?
             || (var plist := tools.parsePlistText(tools.smimeUnwrap(e.data.value)).value;
                 exists i :: 0 <= i < |plist| && plist[i].0 == DeveloperCertificates && CertInfoOf(tools, plist[i].1).None?)
    ensures ProvisionSpec(Some(z), tools, ipaPath, path) == Ok(None)
  {
    if e.data.Some? && tools.parsePlistText(tools.smimeUnwrap(e.data.value)).Some? {
      ProvisionFails(CertInfoFn(tools), tools.parsePlistText(tools.smimeUnwrap(e.data.value)).value);
    }
  }

  // ---------------------------------------------------------------------------
  // Entitlements

  /** The files collect_entitlements_info_with_path probes, in order. */
  function EntitlementCandidates(path: string): (r: seq<string>)
    ensures |r| == 2 || |r| == 3
    ensures r[0] == path + "Entitlements.plist" && r[1] == path + "archived-expanded-entitlements.xcent"
    ensures |r| == 3 <==> FirstDotField(Basename(path)).Some?
    ensures |r| == 3 ==> r[2] == path + FirstDotField(Basename(path)).value + ".entitlements"
  {
    var fwkName := FirstDotField(Basename(path));
    var possible := [path + "Entitlements.plist", path + "archived-expanded-entitlements.xcent"];
    match fwkName
    case None => possible
    case Some(name) => possible + [path + name + ".entitlements"]
  }

  /** The record answered when no candidate yields one. */
  const DefaultEntitlements := Metadata(None, [(Name("error"), Plain(Str("Could not find an entitlements file")))])

  /** The default record has no path and only an "error" key, holding the not-found text. */
  lemma DefaultEntitlementsRecord()
    ensures DefaultEntitlements.pathInIpa.None? && Keys(DefaultEntitlements.content) == [Name("error")]
    ensures Lookup(DefaultEntitlements.content, Name("error")) == Some(Plain(Str("Could not find an entitlements file")))
  {
  }

  /**
   * One candidate of the probe loop: skipped (None) when it is not in the
   * archive or collect_info_plist_info_with_path answers nil for it.
   */
  function Probe(z: ZipFile, tools: Tools, ipaPath: string, candidate: string): (r: Option<Metadata>)
    ensures r.Some? <==> HasEntry(z, candidate) && InfoPlistSpec(Some(z), tools, ipaPath, candidate).value.Some?
    ensures r.Some? ==> InfoPlistSpec(Some(z), tools, ipaPath, candidate) == Ok(r)
  {
    if !HasEntry(z, candidate) then None
    else InfoPlistSpec(Some(z), tools, ipaPath, candidate).value
  }

  /** cands[i] is the first candidate that yields a record. */
  predicate FirstProbedAt(z: ZipFile, tools: Tools, ipaPath: string, cands: seq<string>, i: nat)
    requires i < |cands|
  {
    Probe(z, tools, ipaPath, cands[i]).Some? && forall j :: 0 <= j < i ==> Probe(z, tools, ipaPath, cands[j]).None?
  }

  /** Below a candidate that yields a record there is a first one. */
  lemma FirstProbedIndex(z: ZipFile, tools: Tools, ipaPath: string, cands: seq<string>, i: nat) returns (k: nat)
    requires i < |cands| && Probe(z, tools, ipaPath, cands[i]).Some?
    ensures k <= i && FirstProbedAt(z, tools, ipaPath, cands, k)
    decreases i
  {
    if exists j :: 0 <= j < i && Probe(z, tools, ipaPath, cands[j]).Some? {
      var j :| 0 <= j < i && Probe(z, tools, ipaPath, cands[j]).Some?;
      k := FirstProbedIndex(z, tools, ipaPath, cands, j);
    } else {
      k := i;
    }
  }

  /** The record of the first candidate that yields one. */
  ghost function FirstProbed(z: ZipFile, tools: Tools, ipaPath: string, cands: seq<string>): (r: Option<Metadata>)
    ensures r.Some? ==>
      exists i :: 0 <= i < |cands| && FirstProbedAt(z, tools, ipaPath, cands, i) && r == Probe(z, tools, ipaPath, cands[i])
    ensures r.None? <==> forall j :: 0 <= j < |cands| ==> Probe(z, tools, ipaPath, cands[j]).None?
  {
    if exists i :: 0 <= i < |cands| && FirstProbedAt(z, tools, ipaPath, cands, i) then
      var i :| 0 <= i < |cands| && FirstProbedAt(z, tools, ipaPath, cands, i);
      Probe(z, tools, ipaPath, cands[i])
    else
      assert forall j :: 0 <= j < |cands| ==> Probe(z, tools, ipaPath, cands[j]).None? by {
        forall j | 0 <= j < |cands| && Probe(z, tools, ipaPath, cands[j]).Some?
          ensures false
        {
          var k := FirstProbedIndex(z, tools, ipaPath, cands, j);
        }
      }
      None
  }

  /** The first candidate that yields a record is the one answered. */
  lemma FirstProbedIs(z: ZipFile, tools: Tools, ipaPath: string, cands: seq<string>, i: nat)
    requires i < |cands| && FirstProbedAt(z, tools, ipaPath, cands, i)
    ensures FirstProbed(z, tools, ipaPath, cands) == Probe(z, tools, ipaPath, cands[i])
  {
    var r := FirstProbed(z, tools, ipaPath, cands);
    var i' :| 0 <= i' < |cands| && FirstProbedAt(z, tools, ipaPath, cands, i') && r == Probe(z, tools, ipaPath, cands[i']);
    assert i' == i;
  }

  /**
   * collect_entitlements_info_with_path(path): raises only when the archive is
   * not open; otherwise the first decodable candidate or the default record.
   */
  ghost function EntitlementsSpec(zip: Option<ZipFile>, tools: Tools, ipaPath: string, path: string)
    : (r: Outcome<Metadata>)
    ensures zip.None? <==> r.Raised?
    ensures r.Raised? ==> r.error == NotOpen
  {
    match zip
    case None => Raised(NotOpen)
    case Some(z) =>
      Ok(FirstProbed(z, tools, ipaPath, EntitlementCandidates(path)).GetOr(DefaultEntitlements))
  }

  // ---------------------------------------------------------------------------
  // Frameworks

  /** A sub-record's content: `nil[:content]` raises. */
  function ContentOf(r: Outcome<Option<Metadata>>): (c: Outcome<Hash>)
    ensures c.Raised? <==> r.Raised? || r.value.None?
  {
    match r
    case Raised(e) => Raised(e)
    case Ok(None) => Raised(NilContent)
    case Ok(Some(m)) => Ok(m.content)
  }

  /** One framework's record: its Info.plist's content under the plist's file name. */
  function FrameworkRecordOf(z: ZipFile, tools: Tools, ipaPath: string, fwk: Entry): (r: Outcome<FrameworkInfo>)
    ensures r.Ok? ==> r.value.filename == fwk.name + "Info.plist"
  {
    var filename := fwk.name + "Info.plist";
    match ContentOf(InfoPlistSpec(Some(z), tools, ipaPath, filename))
    case Raised(e) => Raised(e)
    case Ok(content) => Ok(FrameworkInfo(filename, content))
  }

  /** The loop body's outcome for each framework, in glob order. */
  function FrameworkSteps(z: ZipFile, tools: Tools, ipaPath: string, fs: seq<Entry>): (steps: seq<Outcome<FrameworkInfo>>)
    ensures |steps| == |fs| && forall i :: 0 <= i < |fs| ==> steps[i] == FrameworkRecordOf(z, tools, ipaPath, fs[i])
  {
    seq(|fs|, i requires 0 <= i < |fs| => FrameworkRecordOf(z, tools, ipaPath, fs[i]))
  }

  /** The framework records for fs, in glob order; the first raise aborts. */
  function FrameworkRecords(z: ZipFile, tools: Tools, ipaPath: string, fs: seq<Entry>)
    : (r: Outcome<seq<FrameworkInfo>>)
    ensures r.Ok? ==> |r.value| == |fs|
  {
    RunAll(FrameworkSteps(z, tools, ipaPath, fs))
  }

  /**
   * The records are the frameworks' own, one per framework in glob order, and
   * the first framework whose Info.plist is missing or unreadable decides the raise.
   */
  lemma FrameworkRecordsEach(z: ZipFile, tools: Tools, ipaPath: string, fs: seq<Entry>)
    ensures var r := FrameworkRecords(z, tools, ipaPath, fs);
      && (r.Ok? ==> forall i :: 0 <= i < |fs| ==> FrameworkRecordOf(z, tools, ipaPath, fs[i]) == Ok(r.value[i]))
      && (r.Raised? <==> exists i :: 0 <= i < |fs| && FrameworkRecordOf(z, tools, ipaPath, fs[i]).Raised?)
  {
    var steps := FrameworkSteps(z, tools, ipaPath, fs);
    if RunAll(steps).Ok? {
      RunAllValues(steps);
    }
    RunAllRaises(steps);
  }

  const FrameworksGlobSuffix := ".framework"

  /** collect_frameworks_info for the bundle folder `app`. */
  function FrameworksSpec(zip: Option<ZipFile>, tools: Tools, ipaPath: string, app: string)
    : (r: Outcome<Option<FrameworksInfo>>)
    ensures zip.None? ==> r == Raised(NotOpen)
    ensures zip.Some? && Glob(zip.value, app + "/Frameworks/", FrameworksGlobSuffix) == [] ==> r == Ok(None)
    ensures r.Ok? && r.value.Some? ==>
      && r.value.value.pathInIpa == app + "/Frameworks"
      && |r.value.value.content| == |Glob(zip.value, app + "/Frameworks/", FrameworksGlobSuffix)| > 0
  {
    match zip
    case None => Raised(NotOpen)
    case Some(z) =>
      var entries := Glob(z, app + "/Frameworks/", FrameworksGlobSuffix);
      if entries == [] then Ok(None)
      else
        match FrameworkRecords(z, tools, ipaPath, entries)
        case Raised(e) => Raised(e)
        case Ok(records) => Ok(Some(FrameworksInfo(app + "/Frameworks", records)))
  }

  // ---------------------------------------------------------------------------
  // App extensions and the watch app

  /**
   * The recursion measure: one more than the room left between the glob
   * prefix and the longest entry name.  Every glob match is at least as long
   * as the prefix, and the nested prefix adds "PlugIns/", so it falls.
   */
  function PathMeasure(z: ZipFile, q: string): nat {
    var m := MaxNameLength(z.entries);
    if |q| <= m then m + 1 - |q| else 0
  }

  const PlugInsFolder := "PlugIns/"
  const AppexSuffix := ".appex"

  /**
   * A bundle record from the outcomes of its Info.plist, profile, entitlements
   * and PlugIns steps, taken in that order: the first raise is the answer.
   */
  function AssembleNode(name: string, info: Outcome<Hash>, provision: Outcome<Hash>,
                        entitlements: Outcome<Metadata>, plugins: Outcome<Option<seq<BundleNode>>>)
    : (r: Outcome<BundleNode>)
    ensures r.Raised? <==> info.Raised? || provision.Raised? || entitlements.Raised? || plugins.Raised?
    ensures info.Raised? ==> r == Raised(info.error)
    ensures r.Ok? ==> r.value == BundleNode(name, provision.value, entitlements.value.content, info.value,
                                            plugins.value.GetOr([]))
  {
    match info
    case Raised(err) => Raised(err)
    case Ok(infoPlist) =>
      match provision
      case Raised(err) => Raised(err)
      case Ok(mobileprovision) =>
        match entitlements
        case Raised(err) => Raised(err)
        case Ok(ent) =>
          match plugins
          case Raised(err) => Raised(err)
          case Ok(nested) => Ok(BundleNode(name, mobileprovision, ent.content, infoPlist, nested.GetOr([])))
  }

  /** The record of one glob match e under prefix q. */
  ghost function NodeSpec(z: ZipFile, tools: Tools, ipaPath: string, q: string, e: Entry): (r: Outcome<BundleNode>)
    requires e in z.entries && |e.name| >= |q|
    ensures r.Ok? ==> r.value.pathInIpa == e.name
    decreases PathMeasure(z, q), 0, 0
  {
    assert |e.name| <= MaxNameLength(z.entries);
    AssembleNode(e.name,
                 ContentOf(InfoPlistSpec(Some(z), tools, ipaPath, e.name + "Info.plist")),
                 ContentOf(ProvisionSpec(Some(z), tools, ipaPath, e.name)),
                 EntitlementsSpec(Some(z), tools, ipaPath, e.name),
                 ExtensionsSpec(z, tools, ipaPath, e.name + PlugInsFolder, AppexSuffix))
  }

  /**
   * The four parts of a node: the Info.plist and profile contents, the
   * entitlements content, and the nodes of the .appex folders under PlugIns/, [] when there are none.
   */
  lemma NodeParts(z: ZipFile, tools: Tools, ipaPath: string, q: string, e: Entry)
    requires e in z.entries && |e.name| >= |q|
    ensures var r := NodeSpec(z, tools, ipaPath, q, e);
      r.Ok? ==>
        && r.value.infoPlist == ContentOf(InfoPlistSpec(Some(z), tools, ipaPath, e.name + "Info.plist")).value
        && r.value.mobileprovision == ContentOf(ProvisionSpec(Some(z), tools, ipaPath, e.name)).value
        && r.value.entitlements == EntitlementsSpec(Some(z), tools, ipaPath, e.name).value.content
        && r.value.plugins == ExtensionsSpec(z, tools, ipaPath, e.name + PlugInsFolder, AppexSuffix).value.GetOr([])
  {
  }

  /** The loop body's outcome for each glob match, in order. */
  ghost function NodeSteps(z: ZipFile, tools: Tools, ipaPath: string, q: string, ms: seq<Entry>)
    : (steps: seq<Outcome<BundleNode>>)
    requires forall e :: e in ms ==> e in z.entries && |e.name| >= |q|
    ensures |steps| == |ms| && forall i :: 0 <= i < |ms| ==> steps[i] == NodeSpec(z, tools, ipaPath, q, ms[i])
    decreases PathMeasure(z, q), 1, 0
  {
    seq(|ms|, i requires 0 <= i < |ms| => NodeSpec(z, tools, ipaPath, q, ms[i]))
  }

  /** The records of the glob matches ms, in order; the first raise aborts. */
  ghost function NodesSpec(z: ZipFile, tools: Tools, ipaPath: string, q: string, ms: seq<Entry>)
    : (r: Outcome<seq<BundleNode>>)
    requires forall e :: e in ms ==> e in z.entries && |e.name| >= |q|
    ensures r.Ok? ==> |r.value| == |ms|
    decreases PathMeasure(z, q), 1, 1
  {
    RunAll(NodeSteps(z, tools, ipaPath, q, ms))
  }

  /**
   * collect_app_extensions_info_from_path(q, ext) on an open archive: nil when
   * nothing matches `q*ext`, otherwise one record per match in glob order.
   */
  ghost function ExtensionsSpec(z: ZipFile, tools: Tools, ipaPath: string, q: string, ext: string)
    : (r: Outcome<Option<seq<BundleNode>>>)
    ensures r.Ok? ==> (r.value.None? <==> Glob(z, q, ext) == [])
    ensures r.Ok? && r.value.Some? ==> |r.value.value| == |Glob(z, q, ext)|
    decreases PathMeasure(z, q), 2, 0
  {
    var ms := Glob(z, q, ext);
    if ms == [] then Ok(None)
    else
      forall e | e in ms
        ensures e in z.entries && |e.name| >= |q|
      {
        GlobExtendsPrefix(z, q, ext, e);
      }
      match NodesSpec(z, tools, ipaPath, q, ms)
      case Raised(err) => Raised(err)
      case Ok(nodes) => Ok(Some(nodes))
  }

  /** The same, raising when the archive is not open. */
  ghost function AppExtensionsSpec(zip: Option<ZipFile>, tools: Tools, ipaPath: string, q: string, ext: string)
    : (r: Outcome<Option<seq<BundleNode>>>)
    ensures zip.None? ==> r == Raised(NotOpen)
    ensures zip.Some? ==> r == ExtensionsSpec(zip.value, tools, ipaPath, q, ext)
  {
    match zip
    case None => Raised(NotOpen)
    case Some(z) => ExtensionsSpec(z, tools, ipaPath, q, ext)
  }

  /** collect_watch_info for the bundle folder `app`: the first watch app's record, if any. */
  ghost function WatchSpec(zip: Option<ZipFile>, tools: Tools, ipaPath: string, app: string)
    : (r: Outcome<Option<BundleNode>>)
    ensures zip.None? ==> r == Raised(NotOpen)
    ensures zip.Some? && Glob(zip.value, app + "/Watch/", ".app") == [] ==> r == Ok(None)
  {
    match AppExtensionsSpec(zip, tools, ipaPath, app + "/Watch/", ".app")
    case Raised(err) => Raised(err)
    case Ok(None) => Ok(None)
    case Ok(Some(list)) => Ok(Some(list[0]))
  }

  /** One record per `q*ext` match, in glob order, each for its own bundle path. */
  lemma ExtensionsPaths(z: ZipFile, tools: Tools, ipaPath: string, q: string, ext: string)
    requires ExtensionsSpec(z, tools, ipaPath, q, ext).Ok? && ExtensionsSpec(z, tools, ipaPath, q, ext).value.Some?
    ensures var list := ExtensionsSpec(z, tools, ipaPath, q, ext).value.value;
      && |list| == |Glob(z, q, ext)|
      && forall i :: 0 <= i < |list| ==> list[i].pathInIpa == Glob(z, q, ext)[i].name
  {
    var ms := Glob(z, q, ext);
    forall e | e in ms
      ensures e in z.entries && |e.name| >= |q|
    {
      GlobExtendsPrefix(z, q, ext, e);
    }
    RunAllValues(NodeSteps(z, tools, ipaPath, q, ms));
  }

  /** The watch record is the record of the first `.app` bundle under the Watch folder. */
  lemma WatchIsFirst(z: ZipFile, tools: Tools, ipaPath: string, app: string)
    requires WatchSpec(Some(z), tools, ipaPath, app).Ok? && WatchSpec(Some(z), tools, ipaPath, app).value.Some?
    ensures WatchSpec(Some(z), tools, ipaPath, app).value.value.pathInIpa == Glob(z, app + "/Watch/", ".app")[0].name
  {
    ExtensionsPaths(z, tools, ipaPath, app + "/Watch/", ".app");
  }
}
