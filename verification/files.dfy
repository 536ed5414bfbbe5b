/**
 * File-name checks done before the configuration is read, and the name of
 * the snapshot file each feed is written to.
 *
 * `is_valid_file` either returns `True` or terminates the process with exit
 * status 1. Process termination is modelled as the `Exit` verdict, and
 * whether the path exists on disk is an input, since the file system is
 * not part of the model.
 */
module Files {

  /** The file type the entry point asks `is_valid_file` to check. */
  const YmlType := "yml"
  const YmlSuffix := ".yml"
  const YamlSuffix := ".yaml"
  const JsonSuffix := ".json"

  /** Value of the `--config` flag when it is not given. */
  const DefaultConfigPath := "config/config.yml"

  /** Names under which the two feeds are persisted. */
  const BlocklistService := "feodotracker_ip_blocklist"
  const C2Service := "feodotracker_c2"

  /** What `is_valid_file` does: return a boolean, or end the process. */
  datatype Verdict = Accepted(value: bool) | Exit(status: int)

  /**
   * Python's `str.endswith` for one suffix, comparing from the last
   * character backwards.
   */
  function EndsWith(s: string, suffix: string): (b: bool)
    ensures b <==> |suffix| <= |s| && s[|s| - |suffix|..] == suffix
  {
    if |suffix| == 0 then
      true
    else if |s| == 0 then
      false
    else
      var b := s[|s| - 1] == suffix[|suffix| - 1] && EndsWith(s[..|s| - 1], suffix[..|suffix| - 1]);
      assert |suffix| <= |s| ==>
        s[|s| - |suffix|..] == s[..|s| - 1][|s| - |suffix|..] + [s[|s| - 1]];
      assert suffix == suffix[..|suffix| - 1] + [suffix[|suffix| - 1]];
      b
  }

  /** Appending a suffix to any name gives a name that ends with it. */
  lemma EndsWithAppend(prefix: string, suffix: string)
    ensures EndsWith(prefix + suffix, suffix)
  {
    assert (prefix + suffix)[|prefix|..] == suffix;
  }

  /** No name ends with both ".yml" and ".yaml": their third-last characters differ. */
  lemma YmlExcludesYaml(filename: string)
    ensures !(EndsWith(filename, YmlSuffix) && EndsWith(filename, YamlSuffix))
  {
    if EndsWith(filename, YmlSuffix) {
      assert filename[|filename| - 4..][1] == 'y';
    }
  }

  /**
   * `is_valid_file` as written. The extension test reads
   * `not filename.endswith(".yml") or filename.endswith(".yaml")`, which
   * Python groups as `(not A) or B`: a name is rejected when it does not end
   * in ".yml" or when it ends in ".yaml".
   */
  function IsValidFile(filename: string, filetype: string, fileExists: bool): (r: Verdict)
    ensures !fileExists ==> r == Exit(1)
    ensures r.Exit? ==> r.status == 1
    ensures r.Accepted? ==> r.value
    ensures fileExists && filetype != YmlType ==> r == Accepted(true)
    ensures fileExists && filetype == YmlType ==> (r.Accepted? <==> EndsWith(filename, YmlSuffix))
  {
    YmlExcludesYaml(filename);
    if !fileExists then
      Exit(1)
    else if filetype == YmlType && (!EndsWith(filename, YmlSuffix) || EndsWith(filename, YamlSuffix)) then
      Exit(1)
    else
      Accepted(true)
  }

  /** Every existing ".yaml" file is refused by the check as written. */
  lemma YamlFileRejected(stem: string)
    ensures IsValidFile(stem + YamlSuffix, YmlType, true) == Exit(1)
  {
    EndsWithAppend(stem, YamlSuffix);
  }

  /** Every existing ".yml" file is accepted by the check as written. */
  lemma YmlFileAccepted(stem: string)
    ensures IsValidFile(stem + YmlSuffix, YmlType, true) == Accepted(true)
  {
    EndsWithAppend(stem, YmlSuffix);
  }

  /** The default configuration path passes the check when it exists. */
  lemma DefaultConfigAccepted()
    ensures IsValidFile(DefaultConfigPath, YmlType, true) == Accepted(true)
  {
    assert DefaultConfigPath == "config/config" + YmlSuffix;
    YmlFileAccepted("config/config");
  }

  /**
   * The check with the grouping the error message ("is not a yaml file")
   * calls for: `not (A or B)`, so that both YAML extensions are accepted.
   */
  function IsValidFileIntended(filename: string, filetype: string, fileExists: bool): (r: Verdict)
    ensures !fileExists ==> r == Exit(1)
    ensures r.Exit? ==> r.status == 1
    ensures r.Accepted? ==> r.value
    ensures fileExists && filetype != YmlType ==> r == Accepted(true)
    ensures fileExists && filetype == YmlType ==>
      (r.Accepted? <==> EndsWith(filename, YmlSuffix) || EndsWith(filename, YamlSuffix))
  {
    if !fileExists then
      Exit(1)
    else if filetype == YmlType && !(EndsWith(filename, YmlSuffix) || EndsWith(filename, YamlSuffix)) then
      Exit(1)
    else
      Accepted(true)
  }

  /** The intended check accepts an existing file with either YAML extension. */
  lemma IntendedAcceptsBothExtensions(stem: string)
    ensures IsValidFileIntended(stem + YmlSuffix, YmlType, true) == Accepted(true)
    ensures IsValidFileIntended(stem + YamlSuffix, YmlType, true) == Accepted(true)
  {
    EndsWithAppend(stem, YmlSuffix);
    EndsWithAppend(stem, YamlSuffix);
  }

  /** The two checks disagree exactly on existing ".yaml" files checked as YAML. */
  lemma IntendedDiffersOnlyOnYaml(filename: string, filetype: string, fileExists: bool)
    ensures IsValidFile(filename, filetype, fileExists) != IsValidFileIntended(filename, filetype, fileExists)
        <==> fileExists && filetype == YmlType && EndsWith(filename, YamlSuffix)
  {
    YmlExcludesYaml(filename);
  }

  /**
   * Path of the snapshot file a feed is written to: `<base>/iocs/<name>.json`,
   * where `base` is the directory of the running script.
   */
  function SnapshotPath(baseDir: string, serviceName: string): (path: string)
    ensures |baseDir| <= |path| && path[..|baseDir|] == baseDir
    ensures EndsWith(path, JsonSuffix)
  {
    var path := baseDir + "/iocs/" + serviceName + JsonSuffix;
    EndsWithAppend(baseDir + "/iocs/" + serviceName, JsonSuffix);
    path
  }

  /** Different feed names give different snapshot files under the same base. */
  lemma SnapshotPathInjective(baseDir: string, name1: string, name2: string)
    requires SnapshotPath(baseDir, name1) == SnapshotPath(baseDir, name2)
    ensures name1 == name2
  {
    var p1, p2 := SnapshotPath(baseDir, name1), SnapshotPath(baseDir, name2);
    var lo := |baseDir| + |"/iocs/"|;
    assert |name1| == |name2|;
    assert p1[lo..lo + |name1|] == name1;
    assert p2[lo..lo + |name2|] == name2;
  }

  /** The two feeds never overwrite each other's snapshot. */
  lemma FeedSnapshotsDistinct(baseDir: string)
    ensures SnapshotPath(baseDir, BlocklistService) != SnapshotPath(baseDir, C2Service)
  {
    if SnapshotPath(baseDir, BlocklistService) == SnapshotPath(baseDir, C2Service) {
      SnapshotPathInjective(baseDir, BlocklistService, C2Service);
      assert false;
    }
  }
}
