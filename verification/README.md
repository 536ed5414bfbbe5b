# maltracker in Dafny

maltracker fetches two Feodo Tracker feeds: the botnet C2 IP blocklist and
the list of recent C2 indicators of compromise. It saves each feed as a JSON
snapshot. It then reports every feed record whose `country` equals the
country code in its configuration.

This project models the three parts of `maltracker.py` that hold logic:

- `Search` models the country filter and reporter (`search`). It is a method
  with the source's two loops. The method is proved against `ScanReport`, a
  function of the two feeds. `Filter` and `FirstMissing` state what each scan
  selects and where it stops.
- `Files` models the configuration-file check (`is_valid_file`). It also
  models the name of the snapshot file each feed is written to.
- `Config` models the projection of the parsed configuration onto its three
  keys (`load_config`).

`Wrappers` holds the `Result` type used by `Config`.

Inputs and outcomes that stand in for the environment:

- Whether the configuration file exists is a boolean input.
- Process termination (`sys.exit(1)`) is the `Exit(1)` verdict.
- The parsed YAML document is an input `Value`.
- A printed record is an element of the `emitted` output.
- The "No matches were found" message is the `noMatchNotice` output.
- An uncaught `KeyError` or `TypeError` is an error outcome.

A record without a `country` field is not skipped. The code indexes `entry['country']`, so such a record raises
`KeyError` and ends the run (maltracker.py:129, 135). Matches printed before
that record stay printed, and no "no matches" notice follows. `Search.Outcome`
records which feed and which position raised the error.

## Model

| member | source | states |
|---|---|---|
| `Files.EndsWith` | maltracker.py:31 | the suffix test holds exactly when the suffix is no longer than the name and equals the name's last characters (Python `str.endswith`) |
| `Files.YmlExcludesYaml` | maltracker.py:31 | no name ends with both ".yml" and ".yaml" |
| `Files.IsValidFile` | maltracker.py:22-37 | a missing file exits with status 1 whatever the file type; every exit has status 1; every return is `True`; a file type other than "yml" skips the extension test; for an existing file checked as "yml", the file is accepted exactly when its name ends in ".yml" |
| `Files.YamlFileRejected` | maltracker.py:30-36 | an existing file named `<stem>.yaml` and checked as "yml" is rejected with exit status 1, for every stem |
| `Files.YmlFileAccepted` | maltracker.py:30-37 | an existing file named `<stem>.yml` and checked as "yml" is accepted, for every stem |
| `Files.DefaultConfigAccepted` | maltracker.py:52 | the default path "config/config.yml" passes the check when the file exists |
| `Files.IsValidFileIntended` | maltracker.py:31-36 | the corrected check: a missing file exits with status 1; any other file type is accepted; every return is `True`; an existing file checked as "yml" is accepted exactly when its name ends in ".yml" or ".yaml" |
| `Files.IntendedAcceptsBothExtensions` | maltracker.py:31-33 | the corrected check accepts existing files ending in either ".yml" or ".yaml" |
| `Files.IntendedDiffersOnlyOnYaml` | maltracker.py:31 | the code and the corrected check give different verdicts exactly for an existing ".yaml" file checked as "yml" |
| `Files.SnapshotPath` | maltracker.py:68-69 | the snapshot path starts with the script's directory and ends in ".json" |
| `Files.SnapshotPathInjective` | maltracker.py:69 | under one base directory, equal snapshot paths come only from equal feed names |
| `Files.FeedSnapshotsDistinct` | maltracker.py:103-114 | the blocklist snapshot and the C2 snapshot are different files |
| `Config.LoadConfig` | maltracker.py:77-86 | loading succeeds exactly when the document is a mapping holding all three keys; the result then has exactly those three keys, each value copied unchanged from the document; a document that is not a mapping fails with `NotAMapping`; otherwise a failure names one of the three keys that is absent |
| `Config.FirstAbsentKeyReported` | maltracker.py:81-84 | the key reported missing is the first absent key in reading order: `feodotracker_ip_blocklist`, then `feodotracker_c2`, then `country` |
| `Config.ExtraKeyIgnored` | maltracker.py:81-86 | adding a key other than the three leaves the loading result unchanged |
| `Config.ReloadIsIdentity` | maltracker.py:116-117 | loading again after the configuration is written back as the whole document gives the same configuration |
| `Search.Filter` | maltracker.py:128-131 | the matches of one feed are a selection of its records, never more of them, and every one of them has the target country; which records and how often is stated by `Search.FilterMembers` and `Search.FilterCount` |
| `Search.FirstMissing` | maltracker.py:129 | the position returned is the first record without a `country` field, or the feed's length when every record has one |
| `Search.FirstMissingIsLength` | maltracker.py:128-129 | a scan reaches the end of a feed exactly when every record has a `country` field |
| `Search.FirstMissingAt` | maltracker.py:128-129 | a record without a `country` field, after records that all have one, is the first missing one |
| `Search.FilterSnoc` | maltracker.py:128-131 | one more record extends the matches by that record exactly when its country equals the target |
| `Search.FilterConcat` | maltracker.py:128-138 | filtering two feeds one after the other gives the same as filtering their concatenation |
| `Search.FilterMembers` | maltracker.py:129 | a record is among the matches exactly when it occurs in the feed and its country equals the target |
| `Search.FilterCount` | maltracker.py:128-131 | no deduplication: a matching record is emitted as many times as it occurs, and a non-matching one never |
| `Search.FilterEmptyIff` | maltracker.py:128-131 | a feed yields no match exactly when none of its records has the target country |
| `Search.ScenarioOneMatch` | maltracker.py:128-131 | with a US record and a DE record, target "US" emits only the US record, and target "us" emits nothing (the match is case-sensitive) |
| `Search.ScanReport` | maltracker.py:122-141 | a run completes exactly when every record of both feeds has a `country` field; a completed run emits the matches of the concatenated feeds in input order; on a completed run the notice is given exactly when nothing was emitted, and it is never given otherwise |
| `Search.NoMatchNoticeIff` | maltracker.py:139-141 | the "No matches were found" notice is given exactly when both feeds are fully scanned and neither holds a record with the target country |
| `Search.KeyErrorKeepsEarlierMatches` | maltracker.py:128-131 | a blocklist record without a country ends the run with `KeyError` at its position; only blocklist matches before it are emitted, so every emitted record occurs in the blocklist before that position; no notice is given |
| `Search.C2KeyErrorKeepsEarlierMatches` | maltracker.py:134-137 | a C2 record without a country, after a complete blocklist scan, ends the run with `KeyError` at its position; all blocklist matches and the C2 matches before it are emitted, so every emitted record occurs in the blocklist or in the C2 list before that position; no notice is given |
| `Search.SearchFeeds` | maltracker.py:122-141 | the two loops produce exactly `ScanReport`: the emitted records, the notice and the outcome; `status` is true exactly when something was emitted, since it starts false and is set only on a match |

## Findings

| source | as written | input that shows it | evidently intended | confidence | as-written member | corrected member |
|---|---|---|---|---|---|---|
| maltracker.py:31 | the extension test is grouped as "does not end in .yml, or ends in .yaml", so a ".yaml" file is rejected | an existing file "config/config.yaml" checked as "yml" exits with status 1 | "does not end in .yml or .yaml": accept both YAML extensions, as the "is not a yaml file" message implies | high; not executed | `Files.YamlFileRejected` | `Files.IntendedAcceptsBothExtensions` |

`Files.IsValidFile` keeps the behaviour as written, since that is what the
program does. The corrected check is `Files.IsValidFileIntended`.

## Left out

- HTTP fetching (`requests.get`) and JSON decoding of the feed bodies are network I/O and a foreign parser (maltracker.py:101-102, 111-112). The decoded feeds are inputs of `Search.SearchFeeds`.
- Writing the snapshots and creating the `iocs` directory are disk I/O (maltracker.py:68-74, 90-95, 103-104, 113-114). Only the snapshot path is modelled, by `Files.SnapshotPath`.
- YAML parsing (`yaml.safe_load`, maltracker.py:79) is a library call. The parsed document is the input of `Config.LoadConfig`.
- Rewriting the configuration file (`yaml.dump`, maltracker.py:116-117) is disk I/O. `Config.ReloadIsIdentity` assumes that dumping and loading the YAML is the identity.
- Logging, timestamps, `print` and `pprint` formatting, the banner and argument parsing are presentation and CLI plumbing (maltracker.py:12-19, 40-65). The two different `pprint` calls (maltracker.py:130, 136) both become "emit the record".
- `os.path.exists` and `sys.exit` are environment calls (maltracker.py:23, 28, 36). They become the `fileExists` input and the `Exit` verdict.
- `main` and the sequencing in `get_iocs` are not modelled (maltracker.py:89-119, 144-158). They only chain the modelled parts with I/O.
- `Search.Record` maps field names to strings. A feed record whose `country` is not a string (JSON `null`, a number) cannot be written, although in Python, with a string target, it would never match. A feed element that is not a JSON object (which would raise `TypeError`) is also not modelled.
- `Config.Value` has no floats, dates or other YAML scalar kinds. The projection copies values unchanged, so their kind does not affect it.
- `Search.SearchFeeds` takes the target country as a string, although `load_config` passes on whatever YAML value the `country` key holds (maltracker.py:84, 158): an empty `country:` gives `None`, which would match records whose JSON country is `null`, and `country: NO` gives `False` under YAML 1.1, which matches no record. Non-string targets are not modelled.
