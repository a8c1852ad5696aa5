/**
 * find_app_folder_in_ipa: where the application bundle sits inside the IPA.
 * The conventional location Payload/<ipa name>.app is tried first; otherwise
 * the first child of Payload whose name matches `/.app$/` and that holds both
 * an embedded.mobileprovision and an Info.plist.
 */
module Locator {
  import opened Wrappers
  import opened Zip
  import opened Certificate

  /**
   * `"Payload/#{File.basename(ipa_path, File.extname(ipa_path))}.app"`: the IPA
   * file's name without extension, as a folder of Payload, which always passes
   * the `/.app$/` test.
   */
  function CanonicalFolder(ipaPath: string): (r: string)
    ensures |r| >= 12 && r[..8] == "Payload/" && r[|r| - 4..] == ".app"
    ensures r[8..|r| - 4] == BasenameWithoutExt(ipaPath)
    ensures AppPattern(r)
  {
    AppFolderName(BasenameWithoutExt(ipaPath));
    "Payload/" + BasenameWithoutExt(ipaPath) + ".app"
  }

  /** Both files that make a folder the application bundle are present. */
  predicate HasBundle(z: ZipFile, folder: string) {
    HasEntry(z, folder + "/embedded.mobileprovision") && HasEntry(z, folder + "/Info.plist")
  }

  /** The regex `/.app$/` (the dot unescaped) matches with "app" at position p. */
  predicate AppMatchAt(s: string, p: nat) {
    1 <= p && p + 3 <= |s| && s[p - 1] != '\n' && s[p..p + 3] == "app" && EndOfLine(s, p + 3)
  }

  /** `s =~ /.app$/`. */
  predicate AppPattern(s: string) {
    exists p: nat :: p <= |s| && AppMatchAt(s, p)
  }

  /** On a name without newlines `/.app$/` means: at least four characters, ending in "app". */
  lemma AppPatternOnLine(s: string)
    requires '\n' !in s
    ensures AppPattern(s) <==> |s| >= 4 && s[|s| - 3..] == "app"
  {
    if |s| >= 4 && s[|s| - 3..] == "app" {
      assert AppMatchAt(s, |s| - 3);
    }
  }

  /** Any `Payload/<name>.app` passes `/.app$/`. */
  lemma AppFolderName(name: string)
    ensures AppPattern("Payload/" + name + ".app")
  {
    var c := "Payload/" + name + ".app";
    assert AppMatchAt(c, |c| - 3);
  }

  /** A child of Payload that find_app_folder_in_ipa accepts. */
  predicate IsBundleChild(z: ZipFile, child: string) {
    AppPattern(child) && HasBundle(z, "Payload/" + child)
  }

  /** children[i] is the first accepted child. */
  predicate FirstIn(z: ZipFile, children: seq<string>, i: nat)
    requires i < |children|
  {
    IsBundleChild(z, children[i]) && forall j :: 0 <= j < i ==> !IsBundleChild(z, children[j])
  }

  /** The first accepted child of Payload, as "Payload/<child>". */
  ghost function FirstBundle(z: ZipFile, children: seq<string>): (r: Option<string>)
    ensures r.Some? ==> HasBundle(z, r.value)
    ensures r.Some? ==>
      exists i :: 0 <= i < |children| && r.value == "Payload/" + children[i] && FirstIn(z, children, i)
    ensures r.None? <==> forall i :: 0 <= i < |children| ==> !IsBundleChild(z, children[i])
  {
    if exists i :: 0 <= i < |children| && FirstIn(z, children, i) then
      var i :| 0 <= i < |children| && FirstIn(z, children, i);
      Some("Payload/" + children[i])
    else
      assert forall i :: 0 <= i < |children| ==> !IsBundleChild(z, children[i]) by {
        forall i | 0 <= i < |children| && IsBundleChild(z, children[i])
          ensures false
        {
          var k := FirstAcceptedIndex(z, children, i);
        }
      }
      None
  }

  /** Below an accepted child there is a first one. */
  lemma FirstAcceptedIndex(z: ZipFile, children: seq<string>, i: nat) returns (k: nat)
    requires i < |children| && IsBundleChild(z, children[i])
    ensures k <= i && FirstIn(z, children, k)
    decreases i
  {
    if exists j :: 0 <= j < i && IsBundleChild(z, children[j]) {
      var j :| 0 <= j < i && IsBundleChild(z, children[j]);
      k := FirstAcceptedIndex(z, children, j);
    } else {
      k := i;
    }
  }

  /** The accepted child that comes first is the one answered. */
  lemma FirstBundleIs(z: ZipFile, children: seq<string>, i: nat)
    requires i < |children| && FirstIn(z, children, i)
    ensures FirstBundle(z, children) == Some("Payload/" + children[i])
  {
    var r := FirstBundle(z, children);
    assert r.Some?;
    var i' :| 0 <= i' < |children| && r.value == "Payload/" + children[i'] && FirstIn(z, children, i');
    assert i' == i;
  }

  /**
   * The folder find_app_folder_in_ipa answers: Ok(None) for its nil, and
   * the error `dir.entries('Payload')` raises when Payload is no directory.
   */
  ghost function Locate(z: ZipFile, ipaPath: string): (r: Outcome<Option<string>>)
    ensures r.Raised? ==> r.error == PayloadNotDirectory
  {
    var canonical := CanonicalFolder(ipaPath);
    if HasBundle(z, canonical) then Ok(Some(canonical))
    else
      match PayloadChildren(z)
      case None => Raised(PayloadNotDirectory)
      case Some(children) => Ok(FirstBundle(z, children))
  }

  /** The conventional location wins whenever it holds both files. */
  lemma LocateCanonicalFirst(z: ZipFile, ipaPath: string)
    requires HasBundle(z, CanonicalFolder(ipaPath))
    ensures Locate(z, ipaPath) == Ok(Some(CanonicalFolder(ipaPath)))
  {
  }

  /** Every folder answered holds both an embedded.mobileprovision and an Info.plist. */
  lemma LocatedHasBundle(z: ZipFile, ipaPath: string)
    requires Locate(z, ipaPath).Ok? && Locate(z, ipaPath).value.Some?
    ensures HasBundle(z, Locate(z, ipaPath).value.value)
  {
  }

  /**
   * Otherwise the answer is the first child of Payload that passes `/.app$/`
   * and holds both files; nil when there is none.
   */
  lemma LocateSearchesPayload(z: ZipFile, ipaPath: string, children: seq<string>)
    requires !HasBundle(z, CanonicalFolder(ipaPath)) && PayloadChildren(z) == Some(children)
    ensures Locate(z, ipaPath).Ok?
    ensures Locate(z, ipaPath).value.None? <==> forall i :: 0 <= i < |children| ==> !IsBundleChild(z, children[i])
    ensures Locate(z, ipaPath).value.Some? ==>
      exists i :: 0 <= i < |children| && Locate(z, ipaPath).value.value == "Payload/" + children[i] && FirstIn(z, children, i)
  {
  }

  /** The search raises only when the canonical folder fails and Payload is no directory. */
  lemma LocateRaises(z: ZipFile, ipaPath: string)
    ensures Locate(z, ipaPath).Raised? <==> !HasBundle(z, CanonicalFolder(ipaPath)) && PayloadChildren(z).None?
  {
  }
}
