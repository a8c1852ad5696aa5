/**
 * IpaAnalyzer::Analyzer: an IPA path, the archive opened from it and the
 * application folder found inside, and the collectors that read records out
 * of the open archive.  Each collector is proved to answer what the
 * corresponding function of Collectors describes.  Two ghost counters
 * follow the temporary files the plist collectors extract into: every handle
 * is closed again, but `tempfile.close && tempfile.unlink` never unlinks, so
 * every file created stays on disk.
 */
module IpaAnalyzer {
  import opened Wrappers
  import opened Zip
  import opened Plist
  import opened External
  import opened Content
  import opened Collectors
  import opened Locator
  import opened TempFiles

  class Analyzer {
    const ipaPath: string
    /** The openssl and CFPropertyList behaviour the analyzer relies on. */
    const tools: Tools
    /** @ipa_zipfile: None until open! has read an archive. */
    var ipaZipfile: Option<EntrySet>
    /** @app_folder_path. */
    var appFolderPath: Option<string>
    /** Whether `close` has been called on the current archive. */
    var archiveClosed: bool
    /** Temporary files whose handle is open. */
    ghost var openTempFiles: nat
    /** Temporary files created and still on disk. */
    ghost var tempFilesOnDisk: nat

    constructor (ipaPath: string, tools: Tools)
      ensures this.ipaPath == ipaPath && this.tools == tools
      ensures ipaZipfile.None? && appFolderPath.None? && !archiveClosed
      ensures openTempFiles == 0 && tempFilesOnDisk == 0
    {
      this.ipaPath := ipaPath;
      this.tools := tools;
      ipaZipfile := None;
      appFolderPath := None;
      archiveClosed := false;
      openTempFiles := 0;
      tempFilesOnDisk := 0;
    }

    /** open?: an archive is held, whether or not close has been called since. */
    predicate IsOpen()
      reads this
      ensures IsOpen() <==> ipaZipfile != None
    {
      ipaZipfile.Some?
    }

    /** `"#{@app_folder_path}"`: nil interpolates as the empty string. */
    function AppFolder(): string
      reads this
    {
      appFolderPath.GetOr("")
    }

    /**
     * open!: `archive` is what Zip::File.open makes of the file at ipaPath
     * (None when it raises).  Any error, from the zip library or from
     * locating the bundle, becomes 'File is not a valid IPA'; a nil folder
     * raises 'No app folder found in the IPA' after it has been stored.
     */
    method Open(archive: Option<EntrySet>) returns (r: Outcome<()>)
      modifies this`ipaZipfile, this`appFolderPath, this`archiveClosed
      ensures archive.None? ==>
        && r == Raised(InvalidIpa)
        && ipaZipfile == old(ipaZipfile) && appFolderPath == old(appFolderPath)
        && archiveClosed == old(archiveClosed)
      ensures archive.Some? ==> ipaZipfile == archive && !archiveClosed
      ensures archive.Some? ==>
        (match Locate(archive.value, ipaPath)
         case Raised(_) => r == Raised(InvalidIpa) && appFolderPath == old(appFolderPath)
         case Ok(None) => r == Raised(NoAppFolder) && appFolderPath.None?
         case Ok(Some(folder)) => r == Ok(()) && appFolderPath == Some(folder))
      ensures r.Ok? ==> IsOpen() && appFolderPath.Some? && HasBundle(ipaZipfile.value, appFolderPath.value)
    {
      if archive.None? {
        return Raised(InvalidIpa);
      }
      ghost var z0 := archive.value;
      ipaZipfile := archive;
      archiveClosed := false;
      var found := FindAppFolder();
      if found.Raised? {
        return Raised(InvalidIpa);
      }
      appFolderPath := found.value;
      if appFolderPath.Some? {
        LocatedHasBundle(z0, ipaPath);
      }
      if appFolderPath.None? {
        return Raised(NoAppFolder);
      }
      return Ok(());
    }

    /** close: closes the archive when open; open? stays true afterwards. */
    method Close()
      modifies this`archiveClosed
      ensures archiveClosed == (old(archiveClosed) || IsOpen())
    {
      if IsOpen() {
        archiveClosed := true;
      }
    }

    /** find_app_folder_in_ipa. */
    method FindAppFolder() returns (r: Outcome<Option<string>>)
      ensures ipaZipfile.None? ==> r == Raised(NotOpen)
      ensures ipaZipfile.Some? ==> r == Locate(ipaZipfile.value, ipaPath)
    {
      if ipaZipfile.None? {
        return Raised(NotOpen);
      }
      var z := ipaZipfile.value;
      var appFolderInIpa := CanonicalFolder(ipaPath);
      var mobileprovisionEntry := FindEntry(z, appFolderInIpa + "/embedded.mobileprovision");
      var infoPlistEntry := FindEntry(z, appFolderInIpa + "/Info.plist");
      if mobileprovisionEntry.Some? && infoPlistEntry.Some? {
        assert HasBundle(z, appFolderInIpa);
        return Ok(Some(appFolderInIpa));
      }
      assert !HasBundle(z, appFolderInIpa);
      var dirEntries := PayloadChildren(z);
      if dirEntries.None? {
        return Raised(PayloadNotDirectory);
      }
      var found := ScanPayload(z, dirEntries.value, appFolderInIpa, mobileprovisionEntry, infoPlistEntry);
      return Ok(found);
    }

    /**
     * The `dir.entries('Payload').each` loop of find_app_folder_in_ipa and the
     * check after it, starting from the canonical folder's failed lookups.
     */
    method ScanPayload(z: ZipFile, children: seq<string>, canonical: string,
                       canonicalProvision: Option<Entry>, canonicalInfoPlist: Option<Entry>)
      returns (r: Option<string>)
      requires !(canonicalProvision.Some? && canonicalInfoPlist.Some?)
      ensures r == FirstBundle(z, children)
    {
      var appFolderInIpa := canonical;
      var mobileprovisionEntry := canonicalProvision;
      var infoPlistEntry := canonicalInfoPlist;
      var i := 0;
      while i < |children|
        invariant 0 <= i <= |children|
        invariant forall j :: 0 <= j < i ==> !IsBundleChild(z, children[j])
        invariant !(mobileprovisionEntry.Some? && infoPlistEntry.Some?)
      {
        var dirEntry := children[i];
        if !AppPattern(dirEntry) {
          i := i + 1;
          continue;
        }
        appFolderInIpa := "Payload/" + dirEntry;
        mobileprovisionEntry := FindEntry(z, appFolderInIpa + "/embedded.mobileprovision");
        infoPlistEntry := FindEntry(z, appFolderInIpa + "/Info.plist");
        if mobileprovisionEntry.Some? && infoPlistEntry.Some? {
          FirstBundleIs(z, children, i);
          break;
        }
        i := i + 1;
      }
      if mobileprovisionEntry.Some? && infoPlistEntry.Some? {
        return Some(appFolderInIpa);
      }
      return None;
    }

    /** collect_info_plist_info_with_path: one temporary file per entry found, closed but left on disk. */
    method CollectInfoPlistInfoWithPath(path: string) returns (r: Outcome<Option<Metadata>>)
      modifies this`openTempFiles, this`tempFilesOnDisk
      ensures r == InfoPlistSpec(ipaZipfile, tools, ipaPath, path)
      ensures openTempFiles == old(openTempFiles)
      ensures tempFilesOnDisk == old(tempFilesOnDisk) + (if r.Ok? then 1 else 0)
    {
      if ipaZipfile.None? {
        return Raised(NotOpen);
      }
      var z := ipaZipfile.value;
      var infoPlistEntry := FindEntry(z, path);
      if infoPlistEntry.None? {
        return Raised(InfoPlistNotFound(ipaPath));
      }
      var pathInIpa := Some(infoPlistEntry.value.name);
      ghost var tempfile := NewTempFile;
      openTempFiles := openTempFiles + 1;
      tempFilesOnDisk := tempFilesOnDisk + 1;
      var result: Option<Metadata> := None;
      var extracted := infoPlistEntry.value.data;
      if extracted.Some? {
        var plist := tools.parsePlistFile(extracted.value);
        if plist.Some? {
          var content := FillInfoContent(plist.value);
          result := Some(Metadata(pathInIpa, content));
        }
      }
      tempfile := CleanupAsWritten(tempfile);
      openTempFiles := openTempFiles - (if tempfile.isOpen then 0 else 1);
      tempFilesOnDisk := tempFilesOnDisk - (if tempfile.onDisk then 0 else 1);
      return Ok(result);
    }

    /** collect_provision_info_with_path: one temporary file per profile found, closed but left on disk. */
    method CollectProvisionInfoWithPath(path: string) returns (r: Outcome<Option<Metadata>>)
      modifies this`openTempFiles, this`tempFilesOnDisk
      ensures r == ProvisionSpec(ipaZipfile, tools, ipaPath, path)
      ensures openTempFiles == old(openTempFiles)
      ensures tempFilesOnDisk == old(tempFilesOnDisk) + (if r.Ok? then 1 else 0)
    {
      if ipaZipfile.None? {
        return Raised(NotOpen);
      }
      var z := ipaZipfile.value;
      var mobileprovisionPath := path + ProvisionFileName;
      var mobileprovisionEntry := FindEntry(z, mobileprovisionPath);
      if mobileprovisionEntry.None? {
        return Raised(ProvisionNotFound(ipaPath, mobileprovisionPath));
      }
      var pathInIpa := Some(mobileprovisionEntry.value.name);
      ghost var tempfile := NewTempFile;
      openTempFiles := openTempFiles + 1;
      tempFilesOnDisk := tempFilesOnDisk + 1;
      var result: Option<Metadata> := None;
      var extracted := mobileprovisionEntry.value.data;
      if extracted.Some? {
        var plistAsXml := tools.smimeUnwrap(extracted.value);
        var plist := tools.parsePlistText(plistAsXml);
        if plist.Some? {
          var content := FillProvisionContent(tools, plist.value);
          if content.Some? {
            result := Some(Metadata(pathInIpa, content.value));
          }
        }
      }
      tempfile := CleanupAsWritten(tempfile);
      openTempFiles := openTempFiles - (if tempfile.isOpen then 0 else 1);
      tempFilesOnDisk := tempFilesOnDisk - (if tempfile.onDisk then 0 else 1);
      return Ok(result);
    }

    /** collect_entitlements_info_with_path: the probe loop over the candidate files. */
    method CollectEntitlementsInfoWithPath(path: string) returns (r: Outcome<Metadata>)
      modifies this`openTempFiles, this`tempFilesOnDisk
      ensures r == EntitlementsSpec(ipaZipfile, tools, ipaPath, path)
      ensures openTempFiles == old(openTempFiles) && tempFilesOnDisk >= old(tempFilesOnDisk)
    {
      if ipaZipfile.None? {
        return Raised(NotOpen);
      }
      var possibleEntFiles := PossibleEntitlementFiles(path);
      var result := ProbeEntitlements(possibleEntFiles);
      if result.None? {
        result := Some(DefaultEntitlements);
      }
      return Ok(result.value);
    }

    /** The `possible_ent_files` list of collect_entitlements_info_with_path. */
    static method PossibleEntitlementFiles(path: string) returns (files: seq<string>)
      ensures files == EntitlementCandidates(path)
    {
      var fwkName := FirstDotField(Basename(path));
      files := [path + "Entitlements.plist", path + "archived-expanded-entitlements.xcent"];
      if fwkName.Some? {
        files := files + [path + fwkName.value + ".entitlements"];
      }
    }

    /** The `possible_ent_files.each` loop: the first file present that decodes, or nil. */
    method ProbeEntitlements(cands: seq<string>) returns (result: Option<Metadata>)
      requires ipaZipfile.Some?
      modifies this`openTempFiles, this`tempFilesOnDisk
      ensures result == FirstProbed(ipaZipfile.value, tools, ipaPath, cands)
      ensures openTempFiles == old(openTempFiles) && tempFilesOnDisk >= old(tempFilesOnDisk)
    {
      var z := ipaZipfile.value;
      result := None;
      var i := 0;
      while i < |cands|
        invariant 0 <= i <= |cands|
        invariant result.None? ==> forall j :: 0 <= j < i ==> Probe(z, tools, ipaPath, cands[j]).None?
        invariant result.Some? ==> FirstProbed(z, tools, ipaPath, cands) == result
        invariant openTempFiles == old(openTempFiles) && tempFilesOnDisk >= old(tempFilesOnDisk)
      {
        var entFile := cands[i];
        if result.Some? || FindEntry(z, entFile).None? {
          i := i + 1;
          continue;
        }
        var info := CollectInfoPlistInfoWithPath(entFile);
        result := info.value;
        if result.Some? {
          FirstProbedIs(z, tools, ipaPath, cands, i);
        }
        i := i + 1;
      }
    }

    /** collect_frameworks_info: one record per framework folder of the bundle. */
    method CollectFrameworksInfo() returns (r: Outcome<Option<FrameworksInfo>>)
      modifies this`openTempFiles, this`tempFilesOnDisk
      ensures r == FrameworksSpec(ipaZipfile, tools, ipaPath, AppFolder())
      ensures openTempFiles == old(openTempFiles) && tempFilesOnDisk >= old(tempFilesOnDisk)
    {
      if ipaZipfile.None? {
        return Raised(NotOpen);
      }
      var z := ipaZipfile.value;
      var frameworksEntries := Glob(z, AppFolder() + "/Frameworks/", FrameworksGlobSuffix);
      if frameworksEntries == [] {
        return Ok(None);
      }
      var records := CollectFrameworkRecords(frameworksEntries);
      if records.Raised? {
        return Raised(records.error);
      }
      return Ok(Some(FrameworksInfo(AppFolder() + "/Frameworks", records.value)));
    }

    /** The `frameworks_entries.each` loop: one record per framework, the first raise aborting. */
    method CollectFrameworkRecords(fs: seq<Entry>) returns (r: Outcome<seq<FrameworkInfo>>)
      requires ipaZipfile.Some?
      modifies this`openTempFiles, this`tempFilesOnDisk
      ensures r == FrameworkRecords(ipaZipfile.value, tools, ipaPath, fs)
      ensures openTempFiles == old(openTempFiles) && tempFilesOnDisk >= old(tempFilesOnDisk)
    {
      ghost var steps := FrameworkSteps(ipaZipfile.value, tools, ipaPath, fs);
      var records: seq<FrameworkInfo> := [];
      var i := 0;
      RunAllStart(steps);
      while i < |fs|
        invariant 0 <= i <= |fs|
        invariant RunAll(steps) == Prepend(records, RunAll(steps[i..]))
        invariant openTempFiles == old(openTempFiles) && tempFilesOnDisk >= old(tempFilesOnDisk)
      {
        var record := CollectFrameworkRecord(fs[i]);
        if record.Raised? {
          RunAllStop(steps, i, records);
          return Raised(record.error);
        }
        RunAllStep(steps, i, records, record.value);
        records := records + [record.value];
        i := i + 1;
      }
      RunAllDone(steps, records);
      return Ok(records);
    }

    /** One framework's record: its Info.plist content, `nil[:content]` raising. */
    method CollectFrameworkRecord(fwk: Entry) returns (r: Outcome<FrameworkInfo>)
      requires ipaZipfile.Some?
      modifies this`openTempFiles, this`tempFilesOnDisk
      ensures r == FrameworkRecordOf(ipaZipfile.value, tools, ipaPath, fwk)
      ensures openTempFiles == old(openTempFiles) && tempFilesOnDisk >= old(tempFilesOnDisk)
    {
      var fwkInfoplistFilename := fwk.name + "Info.plist";
      var info := CollectInfoPlistInfoWithPath(fwkInfoplistFilename);
      if info.Raised? {
        return Raised(info.error);
      }
      if info.value.None? {
        return Raised(NilContent);
      }
      return Ok(FrameworkInfo(fwkInfoplistFilename, info.value.value.content));
    }

    /**
     * collect_app_extensions_info_from_path: for every `path*extension` match
     * its Info.plist, profile and entitlements, then its own PlugIns.
     */
    method CollectAppExtensionsInfoFromPath(path: string, extension: string)
      returns (r: Outcome<Option<seq<BundleNode>>>)
      modifies this`openTempFiles, this`tempFilesOnDisk
      ensures r == AppExtensionsSpec(ipaZipfile, tools, ipaPath, path, extension)
      ensures openTempFiles == old(openTempFiles) && tempFilesOnDisk >= old(tempFilesOnDisk)
      decreases if ipaZipfile.Some? then PathMeasure(ipaZipfile.value, path) else 0, 3
    {
      if ipaZipfile.None? {
        return Raised(NotOpen);
      }
      var z := ipaZipfile.value;
      var watchEntries := Glob(z, path, extension);
      if watchEntries == [] {
        return Ok(None);
      }
      forall e | e in watchEntries
        ensures e in z.entries && |e.name| >= |path|
      {
        GlobExtendsPrefix(z, path, extension, e);
      }
      var resultList := CollectNodes(path, watchEntries);
      if resultList.Raised? {
        return Raised(resultList.error);
      }
      return Ok(Some(resultList.value));
    }

    /** The `watch_entries.each` loop: one record per match, the first raise aborting. */
    method CollectNodes(path: string, ms: seq<Entry>) returns (r: Outcome<seq<BundleNode>>)
      requires ipaZipfile.Some? && forall e :: e in ms ==> e in ipaZipfile.value.entries && |e.name| >= |path|
      modifies this`openTempFiles, this`tempFilesOnDisk
      ensures r == NodesSpec(ipaZipfile.value, tools, ipaPath, path, ms)
      ensures openTempFiles == old(openTempFiles) && tempFilesOnDisk >= old(tempFilesOnDisk)
      decreases PathMeasure(ipaZipfile.value, path), 2
    {
      ghost var steps := NodeSteps(ipaZipfile.value, tools, ipaPath, path, ms);
      var resultList: seq<BundleNode> := [];
      var i := 0;
      RunAllStart(steps);
      while i < |ms|
        invariant 0 <= i <= |ms|
        invariant RunAll(steps) == Prepend(resultList, RunAll(steps[i..]))
        invariant openTempFiles == old(openTempFiles) && tempFilesOnDisk >= old(tempFilesOnDisk)
      {
        assert ms[i] in ms;
        var node := CollectNode(path, ms[i]);
        if node.Raised? {
          RunAllStop(steps, i, resultList);
          return Raised(node.error);
        }
        RunAllStep(steps, i, resultList, node.value);
        resultList := resultList + [node.value];
        i := i + 1;
      }
      RunAllDone(steps, resultList);
      return Ok(resultList);
    }

    /** The body of the `watch_entries.each` loop for the match `fwk`: Info.plist and profile. */
    method CollectNode(path: string, fwk: Entry) returns (r: Outcome<BundleNode>)
      requires ipaZipfile.Some? && fwk in ipaZipfile.value.entries && |fwk.name| >= |path|
      modifies this`openTempFiles, this`tempFilesOnDisk
      ensures r == NodeSpec(ipaZipfile.value, tools, ipaPath, path, fwk)
      ensures openTempFiles == old(openTempFiles) && tempFilesOnDisk >= old(tempFilesOnDisk)
      decreases PathMeasure(ipaZipfile.value, path), 1
    {
      var info := CollectInfoPlistInfoWithPath(fwk.name + "Info.plist");
      if info.Raised? {
        return Raised(info.error);
      }
      if info.value.None? {
        return Raised(NilContent);
      }
      var provision := CollectProvisionInfoWithPath(fwk.name);
      if provision.Raised? {
        return Raised(provision.error);
      }
      if provision.value.None? {
        return Raised(NilContent);
      }
      r := CollectNodeTail(path, fwk, info.value.value.content, provision.value.value.content);
    }

    /** The rest of the loop body: entitlements, then the nested PlugIns folder. */
    method CollectNodeTail(path: string, fwk: Entry, infoPlist: Hash, mobileprovision: Hash)
      returns (r: Outcome<BundleNode>)
      requires ipaZipfile.Some? && fwk in ipaZipfile.value.entries && |fwk.name| >= |path|
      modifies this`openTempFiles, this`tempFilesOnDisk
      ensures r == AssembleNode(fwk.name, Ok(infoPlist), Ok(mobileprovision),
                                EntitlementsSpec(ipaZipfile, tools, ipaPath, fwk.name),
                                ExtensionsSpec(ipaZipfile.value, tools, ipaPath, fwk.name + PlugInsFolder, AppexSuffix))
      ensures openTempFiles == old(openTempFiles) && tempFilesOnDisk >= old(tempFilesOnDisk)
      decreases PathMeasure(ipaZipfile.value, path), 0
    {
      var watchExtEntitlementsInfo := CollectEntitlementsInfoWithPath(fwk.name);
      if watchExtEntitlementsInfo.Raised? {
        return Raised(watchExtEntitlementsInfo.error);
      }
      assert |fwk.name| <= MaxNameLength(ipaZipfile.value.entries);
      var plugins := CollectAppExtensionsInfoFromPath(fwk.name + PlugInsFolder, AppexSuffix);
      if plugins.Raised? {
        return Raised(plugins.error);
      }
      var nested := if plugins.value.Some? then plugins.value.value else [];
      return Ok(BundleNode(fwk.name, mobileprovision, watchExtEntitlementsInfo.value.content, infoPlist, nested));
    }

    /** collect_watch_info: the record of the first watch app, or nil. */
    method CollectWatchInfo() returns (r: Outcome<Option<BundleNode>>)
      modifies this`openTempFiles, this`tempFilesOnDisk
      ensures r == WatchSpec(ipaZipfile, tools, ipaPath, AppFolder())
      ensures openTempFiles == old(openTempFiles) && tempFilesOnDisk >= old(tempFilesOnDisk)
    {
      var list := CollectAppExtensionsInfoFromPath(AppFolder() + "/Watch/", ".app");
      if list.Raised? {
        return Raised(list.error);
      }
      if list.value.None? {
        return Ok(None);
      }
      return Ok(Some(list.value.value[0]));
    }

    /** collect_provision_info: the bundle's own profile. */
    method CollectProvisionInfo() returns (r: Outcome<Option<Metadata>>)
      modifies this`openTempFiles, this`tempFilesOnDisk
      ensures r == ProvisionSpec(ipaZipfile, tools, ipaPath, AppFolder() + "/")
      ensures openTempFiles == old(openTempFiles) && tempFilesOnDisk >= old(tempFilesOnDisk)
    {
      r := CollectProvisionInfoWithPath(AppFolder() + "/");
    }

    /** collect_info_plist_info: the bundle's own Info.plist. */
    method CollectInfoPlistInfo() returns (r: Outcome<Option<Metadata>>)
      modifies this`openTempFiles, this`tempFilesOnDisk
      ensures r == InfoPlistSpec(ipaZipfile, tools, ipaPath, AppFolder() + "/Info.plist")
      ensures openTempFiles == old(openTempFiles) && tempFilesOnDisk >= old(tempFilesOnDisk)
    {
      r := CollectInfoPlistInfoWithPath(AppFolder() + "/Info.plist");
    }

    /** collect_entitlements_info: the bundle's own entitlements. */
    method CollectEntitlementsInfo() returns (r: Outcome<Metadata>)
      modifies this`openTempFiles, this`tempFilesOnDisk
      ensures r == EntitlementsSpec(ipaZipfile, tools, ipaPath, AppFolder() + "/")
      ensures openTempFiles == old(openTempFiles) && tempFilesOnDisk >= old(tempFilesOnDisk)
    {
      r := CollectEntitlementsInfoWithPath(AppFolder() + "/");
    }

    /** collect_app_extensions_info: the extensions in the bundle's PlugIns folder. */
    method CollectAppExtensionsInfo() returns (r: Outcome<Option<seq<BundleNode>>>)
      modifies this`openTempFiles, this`tempFilesOnDisk
      ensures r == AppExtensionsSpec(ipaZipfile, tools, ipaPath, AppFolder() + "/" + PlugInsFolder, AppexSuffix)
      ensures openTempFiles == old(openTempFiles) && tempFilesOnDisk >= old(tempFilesOnDisk)
    {
      r := CollectAppExtensionsInfoFromPath(AppFolder() + "/" + PlugInsFolder, AppexSuffix);
    }
  }
}
