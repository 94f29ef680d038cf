/** `AssetBundleUtility`: the pure path and name functions of the engine.
    String comparisons are ordinal and lower-casing is ASCII-only. */
module BundlePaths {
  import opened Basics

  /** The `AssetBundleConfig` constants the utility reads. */
  datatype Config = Config(
    assetsFolderPath: string,        // AssetsFolderPath, the prefix of package paths
    assetBundleSuffix: string,       // AssetBundleSuffix, appended to bundle names
    assetBundlesFolderName: string)  // AssetBundlesFolderName under the data roots

  /** The compile-time platform branch of `GetStreamingAssetsFilePath`. */
  datatype Platform = EditorOrIos | Android

  /** The host services the utility consults: Unity's data roots,
      `Path.Combine` and `File.Exists`. */
  datatype Host = Host(
    platform: Platform,
    streamingAssetsPath: string,
    persistentDataPath: string,
    combine: (string, string) -> string,
    fileExists: string -> bool)

  const FileScheme: string := "file://"
  const UnityAssetsRoot: string := "Assets/"

  /** `string.StartsWith`, ordinal. */
  predicate StartsWith(s: string, prefix: string) {
    |prefix| <= |s| && s[..|prefix|] == prefix
  }

  predicate EndsWith(s: string, suffix: string) {
    |suffix| <= |s| && s[|s| - |suffix|..] == suffix
  }

  // ---------------------------------------------------------------------
  // Package path <-> assets path

  /** `IsPackagePath`: the path lies under the assets folder. */
  predicate IsPackagePath(c: Config, path: string) {
    StartsWith(path, c.assetsFolderPath)
  }

  /** `PackagePathToAssetsPath`: prefix the assets folder. The result is a
      package path that `AssetsPathToPackagePath` maps straight back. */
  function PackagePathToAssetsPath(c: Config, path: string): (r: string)
    ensures IsPackagePath(c, r)
    ensures |r| == |c.assetsFolderPath| + |path|
    ensures AssetsPathToPackagePath(c, r) == path
  {
    c.assetsFolderPath + path
  }

  /** `AssetsPathToPackagePath`: strip the assets folder; a path outside it is
      returned unchanged (the original also logs an error). */
  function AssetsPathToPackagePath(c: Config, path: string): (r: string)
    ensures IsPackagePath(c, path) ==> c.assetsFolderPath + r == path
    ensures !IsPackagePath(c, path) ==> r == path
  {
    if StartsWith(path, c.assetsFolderPath) then path[|c.assetsFolderPath|..] else path
  }

  /** Stripping then prefixing gives back every package path, so the two
      conversions are mutually inverse on package paths. */
  lemma PackagePathRoundTrip(c: Config, path: string)
    requires IsPackagePath(c, path)
    ensures PackagePathToAssetsPath(c, AssetsPathToPackagePath(c, path)) == path
  {
  }

  // ---------------------------------------------------------------------
  // Bundle-name normalisation

  /** ASCII `char.ToLower`. */
  function LowerChar(ch: char): (r: char)
    ensures !('A' <= r <= 'Z')
    ensures ch != r ==> 'A' <= ch <= 'Z'
    ensures r == ' ' <==> ch == ' '
    ensures r == '.' <==> ch == '.'
  {
    if 'A' <= ch <= 'Z' then (ch as int - 'A' as int + 'a' as int) as char else ch
  }

  /** ASCII `string.ToLower`. */
  function Lower(s: string): (r: string)
    ensures |r| == |s|
    ensures forall i :: 0 <= i < |s| ==> r[i] == LowerChar(s[i])
  {
    if |s| == 0 then [] else [LowerChar(s[0])] + Lower(s[1..])
  }

  /** `s.Replace(" ", "")`. */
  function RemoveSpaces(s: string): (r: string)
    ensures ' ' !in r
    ensures |r| <= |s|
    ensures ' ' !in s ==> r == s
    ensures forall ch :: ch in r <==> ch in s && ch != ' '
  {
    if |s| == 0 then []
    else (if s[0] == ' ' then [] else [s[0]]) + RemoveSpaces(s[1..])
  }

  /** Space removal works piece by piece: the characters kept from `a + b`
      are those kept from `a` followed by those kept from `b`, in order. */
  lemma {:induction false} RemoveSpacesAppend(a: string, b: string)
    ensures RemoveSpaces(a + b) == RemoveSpaces(a) + RemoveSpaces(b)
    decreases |a|
  {
    if |a| == 0 {
      assert a + b == b;
    } else {
      assert (a + b)[0] == a[0];
      assert (a + b)[1..] == a[1..] + b;
      RemoveSpacesAppend(a[1..], b);
    }
  }

  /** `s.Replace(".", "_")`. */
  function DotsToUnderscores(s: string): (r: string)
    ensures |r| == |s|
    ensures forall i :: 0 <= i < |s| ==> r[i] == (if s[i] == '.' then '_' else s[i])
  {
    if |s| == 0 then [] else [if s[0] == '.' then '_' else s[0]] + DotsToUnderscores(s[1..])
  }

  /** A bundle-name stem: no space, no dot, no upper-case letter. */
  predicate IsNormalStem(s: string) {
    forall i :: 0 <= i < |s| ==> s[i] != ' ' && s[i] != '.' && !('A' <= s[i] <= 'Z')
  }

  /** The normalised stem of a path: spaces removed, dots turned into
      underscores, lower-cased. */
  function NormalStem(s: string): (r: string)
    ensures IsNormalStem(r)
    ensures |r| <= |s|
  {
    Lower(DotsToUnderscores(RemoveSpaces(s)))
  }

  /** The part of a bundle path that names the bundle: relative to the
      assets folder when the path starts with "Assets/". */
  function RelativePath(c: Config, path: string): string {
    if StartsWith(path, UnityAssetsRoot) then AssetsPathToPackagePath(c, path) else path
  }

  /** `AssetBundlePathToAssetBundleName`: null for a null or empty path;
      otherwise the path (relative to the assets folder when it starts with
      "Assets/") normalised and given the bundle suffix. */
  function AssetBundlePathToAssetBundleName(c: Config, path: Option<string>): (r: Option<string>)
    ensures r.None? <==> path.None? || path.value == []
    ensures r.Some? ==>
              r.value == Lower(DotsToUnderscores(RemoveSpaces(RelativePath(c, path.value))))
                         + Lower(c.assetBundleSuffix)
    ensures r.Some? ==>
              && EndsWith(r.value, Lower(c.assetBundleSuffix))
              && IsNormalStem(r.value[..|r.value| - |c.assetBundleSuffix|])
    ensures r.Some? && ' ' !in c.assetBundleSuffix ==> ' ' !in r.value
    ensures r.Some? ==> forall i :: 0 <= i < |r.value| ==> !('A' <= r.value[i] <= 'Z')
  {
    if path.None? || path.value == [] then None
    else
      var p := RelativePath(c, path.value);
      LowerAppend(DotsToUnderscores(RemoveSpaces(p)), c.assetBundleSuffix);
      NameShape(NormalStem(p), c.assetBundleSuffix);
      Some(Lower(DotsToUnderscores(RemoveSpaces(p)) + c.assetBundleSuffix))
  }

  /** A normal stem followed by a lower-cased suffix ends with that suffix,
      has the stem in front of it, has no upper-case letter, and has no
      space unless the suffix does. */
  lemma NameShape(stem: string, suffix: string)
    requires IsNormalStem(stem)
    ensures var name := stem + Lower(suffix);
            && EndsWith(name, Lower(suffix))
            && name[..|name| - |suffix|] == stem
            && (' ' !in suffix ==> ' ' !in name)
            && forall i :: 0 <= i < |name| ==> !('A' <= name[i] <= 'Z')
  {
    var name := stem + Lower(suffix);
    assert name[|name| - |suffix|..] == Lower(suffix);
    assert name[..|name| - |suffix|] == stem;
    forall i | 0 <= i < |name|
      ensures !('A' <= name[i] <= 'Z') && (' ' !in suffix ==> name[i] != ' ')
    {
      if i >= |stem| {
        assert name[i] == LowerChar(suffix[i - |stem|]);
      }
    }
  }

  /** Lower-casing distributes over concatenation. */
  lemma LowerAppend(a: string, b: string)
    ensures Lower(a + b) == Lower(a) + Lower(b)
    decreases |a|
  {
  }

  /** Normalising an already-normal stem changes nothing: the stem of a
      bundle name is a fixed point of the normalisation. */
  lemma NormalStemFixesNormal(s: string)
    requires IsNormalStem(s)
    ensures NormalStem(s) == s
  {
  }

  /** The normalised name of a path that is already a normal stem is that
      stem followed by the lower-cased suffix. */
  lemma NormalNameOfNormalStem(c: Config, stem: string)
    requires IsNormalStem(stem) && stem != [] && !StartsWith(stem, UnityAssetsRoot)
    ensures AssetBundlePathToAssetBundleName(c, Some(stem)) == Some(stem + Lower(c.assetBundleSuffix))
  {
    NormalStemFixesNormal(stem);
    LowerAppend(DotsToUnderscores(RemoveSpaces(stem)), c.assetBundleSuffix);
  }

  // ---------------------------------------------------------------------
  // Data roots and URLs

  /** `GetPersistentDataPath`: the bundles folder under the persistent data
      root, joined with the asset path when one is given. */
  function GetPersistentDataPath(c: Config, h: Host, assetPath: string): string {
    var root := h.combine(h.persistentDataPath, c.assetBundlesFolderName);
    if assetPath != [] then h.combine(root, assetPath) else root
  }

  /** `GetPersistentFilePath`: the persistent data path, as a `file://` URL
      when `wwwUrl` is set. */
  function GetPersistentFilePath(c: Config, h: Host, assetPath: string, wwwUrl: bool): (r: string)
    ensures wwwUrl ==> StartsWith(r, FileScheme) && r[|FileScheme|..] == GetPersistentDataPath(c, h, assetPath)
    ensures !wwwUrl ==> r == GetPersistentDataPath(c, h, assetPath)
  {
    if wwwUrl then FileScheme + GetPersistentDataPath(c, h, assetPath)
    else GetPersistentDataPath(c, h, assetPath)
  }

  /** `GetStreamingAssetsFilePath`: the bundles folder under the streaming
      assets root; in the editor and on iOS it is a `file://` URL when
      `wwwUrl` is set, on Android it never is. */
  function GetStreamingAssetsFilePath(c: Config, h: Host, assetPath: string, wwwUrl: bool): string {
    var root :=
      match h.platform
      case EditorOrIos =>
        if wwwUrl then h.combine(FileScheme + h.streamingAssetsPath, c.assetBundlesFolderName)
        else h.combine(h.streamingAssetsPath, c.assetBundlesFolderName)
      case Android => h.combine(h.streamingAssetsPath, c.assetBundlesFolderName);
    if assetPath != [] then h.combine(root, assetPath) else root
  }

  /** `CheckPersistentFileExsits`. */
  predicate CheckPersistentFileExists(c: Config, h: Host, filePath: string) {
    h.fileExists(GetPersistentDataPath(c, h, filePath))
  }

  /** `GetAssetBundleFileUrl`: a downloaded copy in persistent storage wins
      over the copy shipped in streaming assets. */
  function GetAssetBundleFileUrl(c: Config, h: Host, filePath: string, wwwUrl: bool): (r: string)
    ensures CheckPersistentFileExists(c, h, filePath) ==> r == GetPersistentFilePath(c, h, filePath, wwwUrl)
    ensures !CheckPersistentFileExists(c, h, filePath) ==> r == GetStreamingAssetsFilePath(c, h, filePath, wwwUrl)
  {
    if CheckPersistentFileExists(c, h, filePath) then GetPersistentFilePath(c, h, filePath, wwwUrl)
    else GetStreamingAssetsFilePath(c, h, filePath, wwwUrl)
  }

  /** When a persistent copy exists, the URL handed to the fetcher names the
      very file whose existence was checked: with the `file://` scheme for a
      web request, bare for a direct file load. */
  lemma FileUrlNamesCheckedFile(c: Config, h: Host, filePath: string)
    requires CheckPersistentFileExists(c, h, filePath)
    ensures GetAssetBundleFileUrl(c, h, filePath, true) == FileScheme + GetPersistentDataPath(c, h, filePath)
    ensures GetAssetBundleFileUrl(c, h, filePath, false) == GetPersistentDataPath(c, h, filePath)
    ensures h.fileExists(GetAssetBundleFileUrl(c, h, filePath, false))
  {
  }
}
