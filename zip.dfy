/**
 * The zip container as the analyzer sees it through rubyzip: an ordered list of
 * entries, each with a name (directory entries end in '/') and the bytes that
 * extracting it yields (None when extraction fails).  Lookup, glob and the
 * directory listing are stated as the filters rubyzip applies to the names;
 * zip decoding itself is not modelled.  Ruby's File.basename / File.extname
 * path rules used by the analyzer live here too.
 */
module Zip {
  import opened Wrappers

  newtype byte = x: int | 0 <= x < 256

  datatype Entry = Entry(name: string, data: Option<seq<byte>>)

  datatype ZipFile = ZipFile(entries: seq<Entry>)

  /** Ruby's `chomp('/')`: drops one trailing slash, the key rubyzip looks names up by. */
  function Chomp(s: string): (r: string)
    ensures |s| > 0 && s[|s| - 1] == '/' ==> r == s[..|s| - 1]
    ensures !(|s| > 0 && s[|s| - 1] == '/') ==> r == s
  {
    if |s| > 0 && s[|s| - 1] == '/' then s[..|s| - 1] else s
  }

  /** The first entry whose chomped name is `key`. */
  function FindIn(es: seq<Entry>, key: string): (r: Option<Entry>)
    ensures r.Some? ==> r.value in es && Chomp(r.value.name) == key
  {
    if es == [] then None
    else if Chomp(es[0].name) == key then Some(es[0])
    else FindIn(es[1..], key)
  }

  /** `find_entry(path)`: exact lookup, a trailing '/' on either side ignored. */
  function FindEntry(z: ZipFile, path: string): (r: Option<Entry>)
    ensures r.Some? ==> r.value in z.entries && Chomp(r.value.name) == Chomp(path)
  {
    FindIn(z.entries, Chomp(path))
  }

  /** find_entry answers nil exactly when no entry has the name, a trailing '/' ignored. */
  lemma {:induction false} FindInNone(es: seq<Entry>, key: string)
    ensures FindIn(es, key).None? <==> forall e :: e in es ==> Chomp(e.name) != key
  {
    if es != [] {
      FindInNone(es[1..], key);
    }
  }

  lemma FindEntryNone(z: ZipFile, path: string)
    ensures FindEntry(z, path).None? <==> forall e :: e in z.entries ==> Chomp(e.name) != Chomp(path)
  {
    FindInNone(z.entries, Chomp(path));
  }

  predicate HasEntry(z: ZipFile, path: string) {
    FindEntry(z, path).Some?
  }

  /**
   * rubyzip keeps the entries in a hash keyed by the chomped name, so the entry
   * set an open archive exposes never has two entries with the same key.
   */
  predicate DistinctNames(z: ZipFile) {
    forall i, j :: 0 <= i < j < |z.entries| ==> Chomp(z.entries[i].name) != Chomp(z.entries[j].name)
  }

  /** The entry set of an open archive. */
  type EntrySet = z: ZipFile | DistinctNames(z) witness ZipFile([])

  /** In an entry set, find_entry answers the one entry with the name. */
  lemma FindEntryUnique(z: ZipFile, path: string, e: Entry)
    requires DistinctNames(z) && e in z.entries && Chomp(e.name) == Chomp(path)
    ensures FindEntry(z, path) == Some(e)
  {
    FindEntryNone(z, path);
    var found := FindEntry(z, path).value;
    var i :| 0 <= i < |z.entries| && z.entries[i] == e;
    var j :| 0 <= j < |z.entries| && z.entries[j] == found;
    assert Chomp(z.entries[i].name) == Chomp(z.entries[j].name);
  }

  /**
   * Whether an entry name matches the glob `prefix*suffix`: the star stands for
   * any text without '/', and a trailing '/' on the name is ignored.
   */
  predicate GlobMatch(name: string, prefix: string, suffix: string) {
    var n := Chomp(name);
    && |n| >= |prefix| + |suffix|
    && n[..|prefix|] == prefix
    && n[|n| - |suffix|..] == suffix
    && '/' !in n[|prefix|..|n| - |suffix|]
  }

  function GlobIn(es: seq<Entry>, prefix: string, suffix: string): (r: seq<Entry>)
    ensures |r| <= |es|
    ensures forall e :: e in r <==> e in es && GlobMatch(e.name, prefix, suffix)
  {
    if es == [] then []
    else if GlobMatch(es[0].name, prefix, suffix) then [es[0]] + GlobIn(es[1..], prefix, suffix)
    else GlobIn(es[1..], prefix, suffix)
  }

  /** `glob(prefix + "*" + suffix)`: the matching entries, in archive order. */
  function Glob(z: ZipFile, prefix: string, suffix: string): (r: seq<Entry>)
    ensures forall e :: e in r <==> e in z.entries && GlobMatch(e.name, prefix, suffix)
  {
    GlobIn(z.entries, prefix, suffix)
  }

  /** Every glob match is the parent prefix extended by at least the suffix. */
  lemma GlobExtendsPrefix(z: ZipFile, prefix: string, suffix: string, e: Entry)
    requires e in Glob(z, prefix, suffix)
    ensures |e.name| >= |prefix| + |suffix| && e.name[..|prefix|] == prefix
  {
    var n := Chomp(e.name);
    assert GlobMatch(e.name, prefix, suffix);
    assert n[..|prefix|] == e.name[..|prefix|];
  }

  /** The length of the longest entry name: no glob match can be longer. */
  function MaxNameLength(es: seq<Entry>): (r: nat)
    ensures forall e :: e in es ==> |e.name| <= r
  {
    if es == [] then 0
    else
      var rest := MaxNameLength(es[1..]);
      if |es[0].name| > rest then |es[0].name| else rest
  }

  /** `c` is the name of an entry directly under `dir`: the chomped name is `dir` + c, c one non-empty segment. */
  predicate IsChildOf(name: string, dir: string, c: string) {
    Chomp(name) == dir + c && c != [] && '/' !in c
  }

  /** The names directly under `dir` (which ends in '/'), in archive order. */
  function ChildrenIn(es: seq<Entry>, dir: string): (r: seq<string>)
    ensures forall c :: c in r <==> exists e :: e in es && IsChildOf(e.name, dir, c)
  {
    if es == [] then []
    else
      var n := Chomp(es[0].name);
      if |n| > |dir| && n[..|dir|] == dir && '/' !in n[|dir|..] then
        assert n == dir + n[|dir|..];
        assert IsChildOf(es[0].name, dir, n[|dir|..]);
        [n[|dir|..]] + ChildrenIn(es[1..], dir)
      else
        assert forall c :: !IsChildOf(es[0].name, dir, c) by {
          forall c | Chomp(es[0].name) == dir + c && c != []
            ensures '/' in c
          {
            assert n[..|dir|] == dir && n[|dir|..] == c;
          }
        }
        ChildrenIn(es[1..], dir)
  }

  /** Children are listed in archive order: the listing of a concatenation is the concatenation of the listings. */
  lemma {:induction false} ChildrenInAppend(es: seq<Entry>, more: seq<Entry>, dir: string)
    ensures ChildrenIn(es + more, dir) == ChildrenIn(es, dir) + ChildrenIn(more, dir)
  {
    if es == [] {
      assert es + more == more;
    } else {
      assert (es + more)[0] == es[0];
      assert (es + more)[1..] == es[1..] + more;
      ChildrenInAppend(es[1..], more, dir);
    }
  }

  /**
   * `dir.entries('Payload')`: the direct children of Payload; it fails when
   * there is no directory entry named Payload/.
   */
  function PayloadChildren(z: ZipFile): (r: Option<seq<string>>)
    ensures r.Some? ==> exists e :: e in z.entries && e.name == "Payload/"
    ensures (forall e :: e in z.entries ==> Chomp(e.name) != "Payload") ==> r.None?
    ensures r.Some? ==> r.value == ChildrenIn(z.entries, "Payload/")
  {
    FindEntryNone(z, "Payload");
    match FindEntry(z, "Payload")
    case None => None
    case Some(e) =>
      if |e.name| > 0 && e.name[|e.name| - 1] == '/' then Some(ChildrenIn(z.entries, "Payload/"))
      else None
  }

  /** In an entry set, Payload can be listed exactly when there is a directory entry "Payload/". */
  lemma PayloadChildrenIs(z: ZipFile)
    requires DistinctNames(z)
    ensures PayloadChildren(z).Some? <==> exists e :: e in z.entries && e.name == "Payload/"
  {
    if e :| e in z.entries && e.name == "Payload/" {
      FindEntryUnique(z, "Payload", e);
    }
  }

  // ---------------------------------------------------------------------------
  // Ruby path helpers

  /**
   * Ruby's File.basename: the last segment once trailing slashes are dropped,
   * "/" for a name made only of slashes, "" for "".
   */
  function Basename(path: string): (r: string)
    ensures path == [] ==> r == []
    ensures path != [] && (forall i :: 0 <= i < |path| ==> path[i] == '/') ==> r == "/"
    ensures (exists i :: 0 <= i < |path| && path[i] != '/') ==>
      var t := StripSlashes(path);
      && 0 < |r| <= |t| && r == t[|t| - |r|..] && '/' !in r
      && (|r| == |t| || t[|t| - |r| - 1] == '/')
  {
    var t := StripSlashes(path);
    if t == [] then (if path == [] then [] else "/")
    else t[LastSlashEnd(t)..]
  }

  /** `s` without its trailing slashes. */
  function StripSlashes(s: string): (r: string)
    ensures |r| <= |s| && r == s[..|r|]
    ensures r == [] || r[|r| - 1] != '/'
    ensures forall i :: |r| <= i < |s| ==> s[i] == '/'
  {
    if s != [] && s[|s| - 1] == '/' then StripSlashes(s[..|s| - 1]) else s
  }

  /** The position just after the last '/', or 0. */
  function LastSlashEnd(s: string): (k: nat)
    ensures k <= |s| && '/' !in s[k..]
    ensures k == 0 || s[k - 1] == '/'
  {
    if s == [] then 0
    else if s[|s| - 1] == '/' then |s|
    else LastSlashEnd(s[..|s| - 1])
  }

  /** The index of the last '.' of `s` after position `from`, if any. */
  function LastDotAfter(s: string, from: nat): (r: Option<nat>)
    ensures r.Some? ==> from <= r.value < |s| && s[r.value] == '.' && '.' !in s[r.value + 1..]
    ensures r.None? ==> forall i :: from <= i < |s| ==> s[i] != '.'
    decreases |s|
  {
    if |s| <= from then None
    else if s[|s| - 1] == '.' then Some(|s| - 1)
    else LastDotAfter(s[..|s| - 1], from)
  }

  /** The number of leading dots, which File.extname does not treat as an extension. */
  function LeadingDots(s: string): (k: nat)
    ensures k <= |s| && (k == |s| || s[k] != '.')
    ensures forall i :: 0 <= i < k ==> s[i] == '.'
  {
    if s != [] && s[0] == '.' then 1 + LeadingDots(s[1..]) else 0
  }

  /**
   * A segment without its extension: cut at its last '.' after the leading
   * dots (File.extname ignores those), whole when there is no such dot.
   */
  function WithoutExtension(b: string): (r: string)
    ensures '.' !in b[LeadingDots(b)..] ==> r == b
    ensures '.' in b[LeadingDots(b)..] ==>
      && 0 < |r| < |b| && r == b[..|r|] && b[|r|] == '.' && '.' !in b[|r| + 1..] && LeadingDots(b) <= |r|
  {
    var d := LeadingDots(b);
    match LastDotAfter(b, d)
    case None =>
      assert '.' !in b[d..] by {
        forall i | 0 <= i < |b| - d ensures b[d..][i] != '.' {
          assert b[d..][i] == b[d + i];
        }
      }
      b
    case Some(k) =>
      var r := b[..k];
      assert |r| == k && b[|r| + 1..] == b[k + 1..];
      r
  }

  /** `File.basename(path, File.extname(path))`: the last segment without its extension. */
  function BasenameWithoutExt(path: string): (r: string)
    ensures var b := Basename(path); '.' !in b[LeadingDots(b)..] ==> r == b
    ensures var b := Basename(path); '.' in b[LeadingDots(b)..] ==>
      && 0 < |r| < |b| && r == b[..|r|] && b[|r|] == '.' && '.' !in b[|r| + 1..] && LeadingDots(b) <= |r|
  {
    WithoutExtension(Basename(path))
  }

  /**
   * `s.split('.')[0]`: the text before the first '.', or None when `split`
   * yields nothing because `s` holds only dots (or is empty).
   */
  function FirstDotField(s: string): (r: Option<string>)
    ensures r.None? <==> forall i :: 0 <= i < |s| ==> s[i] == '.'
    ensures r.Some? ==> '.' !in r.value && |r.value| <= |s| && r.value == s[..|r.value|]
    ensures r.Some? ==> |r.value| == |s| || s[|r.value|] == '.'
  {
    if forall i :: 0 <= i < |s| ==> s[i] == '.' then None
    else Some(s[..FirstDot(s)])
  }

  function FirstDot(s: string): (k: nat)
    ensures k <= |s| && '.' !in s[..k] && (k == |s| || s[k] == '.')
  {
    if s == [] || s[0] == '.' then 0 else 1 + FirstDot(s[1..])
  }
}
