/** Synchronization rules between the custom resource and the API, in both directions
    (`customUpdateFileSystem` and the two fetch functions of `pkg/resource/file_system/hooks.go`). */
module SyncRules {
  import opened Nilable
  import opened Service
  import opened FileSystems

  // ---------------------------------------------------------------- specification

  function SentImport(r: ImportDataRule): SdkImportRule {
    SdkImportRule(r.prefix, r.sizeLessThan, if r.trigger.Some? then r.trigger.value else "")
  }

  function SentExpiration(r: ExpirationDataRule): SdkExpirationRule {
    SdkExpirationRule(if r.daysAfterLastAccess.Some? then Some(ToInt32(r.daysAfterLastAccess.value)) else None)
  }

  function ReadImport(r: SdkImportRule): ImportDataRule {
    ImportDataRule(r.prefix, r.sizeLessThan, if r.trigger != "" then Some(r.trigger) else None)
  }

  function ReadExpiration(r: SdkExpirationRule): ExpirationDataRule {
    ExpirationDataRule(if r.daysAfterLastAccess.Some? then Some(r.daysAfterLastAccess.value as int64) else None)
  }

  function Mapped<A, B>(f: A -> B, s: seq<A>): seq<B> {
    seq(|s|, i requires 0 <= i < |s| => f(s[i]))
  }

  /** A nil list stays nil. */
  function MappedList<A, B>(f: A -> B, s: Option<seq<A>>): Option<seq<B>> {
    if s.Some? then Some(Mapped(f, s.value)) else None
  }

  function SentConfiguration(spec: FileSystemSpec): SyncConfiguration {
    SyncConfiguration(MappedList(SentImport, spec.importDataRules),
                      MappedList(SentExpiration, spec.expirationDataRules))
  }

  function SentVersion(v: Option<int64>): Option<int32> {
    if v.Some? then Some(ToInt32(v.value)) else None
  }

  function ReadVersion(v: Option<int32>): Option<int64> {
    if v.Some? then Some(v.value as int64) else None
  }

  // ---------------------------------------------------------------- the code

  method BuildImportRules(rules: seq<ImportDataRule>) returns (sent: seq<SdkImportRule>)
    ensures sent == Mapped(SentImport, rules)
    ensures |sent| == |rules|
    ensures forall i :: 0 <= i < |rules| ==>
              && sent[i].prefix == rules[i].prefix && sent[i].sizeLessThan == rules[i].sizeLessThan
              && sent[i].trigger == match rules[i].trigger case Some(t) => t case None => ""
  {
    var sdkRules := new SdkImportRule[|rules|](_ => SdkImportRule(None, None, ""));
    for i := 0 to |rules|
      invariant forall j :: 0 <= j < i ==> sdkRules[j] == SentImport(rules[j])
    {
      var r := rules[i];
      var sdkRule := SdkImportRule(None, None, "");
      if r.prefix.Some? {
        sdkRule := sdkRule.(prefix := r.prefix);
      }
      if r.sizeLessThan.Some? {
        sdkRule := sdkRule.(sizeLessThan := r.sizeLessThan);
      }
      if r.trigger.Some? {
        sdkRule := sdkRule.(trigger := r.trigger.value);
      }
      sdkRules[i] := sdkRule;
    }
    return sdkRules[..];
  }

  method BuildExpirationRules(rules: seq<ExpirationDataRule>) returns (sent: seq<SdkExpirationRule>)
    ensures sent == Mapped(SentExpiration, rules)
    ensures |sent| == |rules|
    ensures forall i :: 0 <= i < |rules| ==>
              && (sent[i].daysAfterLastAccess.Some? <==> rules[i].daysAfterLastAccess.Some?)
              && (rules[i].daysAfterLastAccess.Some? ==>
                    (sent[i].daysAfterLastAccess.value - rules[i].daysAfterLastAccess.value) % TWO_TO_32 == 0)
  {
    var sdkRules := new SdkExpirationRule[|rules|](_ => SdkExpirationRule(None));
    for i := 0 to |rules|
      invariant forall j :: 0 <= j < i ==> sdkRules[j] == SentExpiration(rules[j])
    {
      var r := rules[i];
      var sdkRule := SdkExpirationRule(None);
      if r.daysAfterLastAccess.Some? {
        sdkRule := SdkExpirationRule(Some(ToInt32(r.daysAfterLastAccess.value)));
      }
      sdkRules[i] := sdkRule;
    }
    return sdkRules[..];
  }

  /** The argument of PutSynchronizationConfiguration. */
  method BuildPutInput(desired: FileSystemSpec, latest: FileSystemStatus) returns (input: Call)
    ensures input == PutSynchronizationConfiguration(latest.fileSystemID, SentVersion(latest.latestVersionNumber),
            SentConfiguration(desired))
    ensures input.version.Some? <==> latest.latestVersionNumber.Some?
    ensures input.config.imports.Some? <==> desired.importDataRules.Some?
    ensures input.config.expirations.Some? <==> desired.expirationDataRules.Some?
  {
    var version: Option<int32> := None;
    if latest.latestVersionNumber.Some? {
      version := Some(ToInt32(latest.latestVersionNumber.value));
    }
    var imports: Option<seq<SdkImportRule>>, expirations: Option<seq<SdkExpirationRule>> := None, None;
    if desired.importDataRules.Some? {
      var sent := BuildImportRules(desired.importDataRules.value);
      imports := Some(sent);
    }
    if desired.expirationDataRules.Some? {
      var sent := BuildExpirationRules(desired.expirationDataRules.value);
      expirations := Some(sent);
    }
    return PutSynchronizationConfiguration(latest.fileSystemID, version, SyncConfiguration(imports, expirations));
  }

  datatype Response<+T> = Ok(value: T) | Err(error: Error)

  /** The two codes that mean there is nothing to read (yet). */
  predicate MeansAbsent(e: Error) {
    e.apiCode == Some(NOT_FOUND) || e.apiCode == Some(VALIDATION)
  }

  method FetchFileSystemPolicy(id: Option<string>, answer: Response<Option<string>>)
    returns (policy: Option<string>, err: Option<Error>)
    ensures id.None? ==> policy.None? && err.None?
    ensures id.Some? && answer.Ok? ==> policy == answer.value && err.None?
    ensures id.Some? && answer.Err? ==>
              && policy.None?
              && err == if answer.error.apiCode == Some("ResourceNotFoundException")
                           || answer.error.apiCode == Some("ValidationException") then None else Some(answer.error)
  {
    if id.None? {
      return None, None;
    }
    if answer.Err? {
      if answer.error.apiCode == Some(NOT_FOUND) || answer.error.apiCode == Some(VALIDATION) {
        return None, None;
      }
      return None, Some(answer.error);
    }
    return answer.value, None;
  }

  datatype SyncOutput = SyncOutput(config: SyncConfiguration, version: Option<int32>)

  datatype Fetched = Fetched(imports: Option<seq<ImportDataRule>>, expirations: Option<seq<ExpirationDataRule>>,
          version: Option<int64>)

  const NOTHING_FETCHED := Fetched(None, None, None)

  function ReadBack(o: SyncOutput): Fetched {
    Fetched(MappedList(ReadImport, o.config.imports), MappedList(ReadExpiration, o.config.expirations),
            ReadVersion(o.version))
  }

  method FetchSynchronizationConfiguration(id: Option<string>, answer: Response<SyncOutput>)
    returns (f: Fetched, err: Option<Error>)
    ensures id.None? ==> f == NOTHING_FETCHED && err.None?
    ensures id.Some? && answer.Ok? ==> f == ReadBack(answer.value) && err.None?
    ensures id.Some? && answer.Ok? ==>
              && (f.imports.Some? <==> answer.value.config.imports.Some?)
              && (f.expirations.Some? <==> answer.value.config.expirations.Some?)
              && (f.version.Some? <==> answer.value.version.Some?)
              && (f.version.Some? ==> f.version.value == answer.value.version.value as int64)
    ensures id.Some? && answer.Err? ==>
              && f == Fetched(None, None, None)
              && err == if answer.error.apiCode == Some("ResourceNotFoundException")
                           || answer.error.apiCode == Some("ValidationException") then None else Some(answer.error)
  {
    if id.None? {
      return NOTHING_FETCHED, None;
    }
    if answer.Err? {
      if answer.error.apiCode == Some(NOT_FOUND) || answer.error.apiCode == Some(VALIDATION) {
        return NOTHING_FETCHED, None;
      }
      return NOTHING_FETCHED, Some(answer.error);
    }
    var resp := answer.value;
    var importRules: Option<seq<ImportDataRule>> := None;
    if resp.config.imports.Some? {
      var read := ReadImportRules(resp.config.imports.value);
      importRules := Some(read);
    }
    var expirationRules: Option<seq<ExpirationDataRule>> := None;
    if resp.config.expirations.Some? {
      var read := ReadExpirationRules(resp.config.expirations.value);
      expirationRules := Some(read);
    }
    var latestVersion: Option<int64> := None;
    if resp.version.Some? {
      latestVersion := Some(resp.version.value as int64);
    }
    return Fetched(importRules, expirationRules, latestVersion), None;
  }

  method ReadImportRules(sent: seq<SdkImportRule>) returns (rules: seq<ImportDataRule>)
    ensures rules == Mapped(ReadImport, sent)
    ensures |rules| == |sent|
    ensures forall i :: 0 <= i < |sent| ==>
              && rules[i].prefix == sent[i].prefix && rules[i].sizeLessThan == sent[i].sizeLessThan
              && rules[i].trigger == if sent[i].trigger == "" then None else Some(sent[i].trigger)
  {
    var a := new ImportDataRule[|sent|](_ => ImportDataRule(None, None, None));
    for i := 0 to |sent|
      invariant forall j :: 0 <= j < i ==> a[j] == ReadImport(sent[j])
    {
      var r := sent[i];
      var rule := ImportDataRule(None, None, None);
      if r.prefix.Some? {
        rule := rule.(prefix := r.prefix);
      }
      if r.sizeLessThan.Some? {
        rule := rule.(sizeLessThan := r.sizeLessThan);
      }
      if r.trigger != "" {
        rule := rule.(trigger := Some(r.trigger));
      }
      a[i] := rule;
    }
    return a[..];
  }

  method ReadExpirationRules(sent: seq<SdkExpirationRule>) returns (rules: seq<ExpirationDataRule>)
    ensures rules == Mapped(ReadExpiration, sent)
    ensures |rules| == |sent|
    ensures forall i :: 0 <= i < |sent| ==>
              && (rules[i].daysAfterLastAccess.Some? <==> sent[i].daysAfterLastAccess.Some?)
              && (sent[i].daysAfterLastAccess.Some? ==>
                    rules[i].daysAfterLastAccess.value == sent[i].daysAfterLastAccess.value as int64)
  {
    var a := new ExpirationDataRule[|sent|](_ => ExpirationDataRule(None));
    for i := 0 to |sent|
      invariant forall j :: 0 <= j < i ==> a[j] == ReadExpiration(sent[j])
    {
      var rule := ExpirationDataRule(None);
      if sent[i].daysAfterLastAccess.Some? {
        rule := ExpirationDataRule(Some(sent[i].daysAfterLastAccess.value as int64));
      }
      a[i] := rule;
    }
    return a[..];
  }

  // ---------------------------------------------------------------- round trip

  predicate KeepsImport(r: ImportDataRule) {
    r.trigger != Some("")
  }

  predicate KeepsExpiration(r: ExpirationDataRule) {
    r.daysAfterLastAccess.Some? ==> FitsInt32(r.daysAfterLastAccess.value)
  }

  predicate AllKept(spec: FileSystemSpec) {
    && (spec.importDataRules.Some? ==>
          forall i :: 0 <= i < |spec.importDataRules.value| ==> KeepsImport(spec.importDataRules.value[i]))
    && (spec.expirationDataRules.Some? ==>
          forall i :: 0 <= i < |spec.expirationDataRules.value| ==> KeepsExpiration(spec.expirationDataRules.value[i]))
  }

  lemma MappedTwiceIsSame<A, B>(f: A -> B, g: B -> A, s: seq<A>)
    ensures Mapped(g, Mapped(f, s)) == s <==> forall i :: 0 <= i < |s| ==> g(f(s[i])) == s[i]
    ensures |Mapped(g, Mapped(f, s))| == |s|
  {
  }

  /** What is written and read back is the same, in number, order and content, exactly when every
      days value fits in 32 bits and no trigger is the empty string. */
  lemma RulesRoundTrip(spec: FileSystemSpec, version: Option<int32>)
    ensures var f := ReadBack(SyncOutput(SentConfiguration(spec), version));
            f.imports == spec.importDataRules && f.expirations == spec.expirationDataRules <==> AllKept(spec)
  {
    if spec.importDataRules.Some? {
      MappedTwiceIsSame(SentImport, ReadImport, spec.importDataRules.value);
      forall r: ImportDataRule ensures ReadImport(SentImport(r)) == r <==> KeepsImport(r) {}
    }
    if spec.expirationDataRules.Some? {
      MappedTwiceIsSame(SentExpiration, ReadExpiration, spec.expirationDataRules.value);
      forall r: ExpirationDataRule ensures ReadExpiration(SentExpiration(r)) == r <==> KeepsExpiration(r) {}
    }
  }

  /** For any 64-bit days value, what is read back is the one int32 congruent to it modulo 2^32. */
  lemma DaysReadBack(days: int64, r: int32)
    requires (days - r) % TWO_TO_32 == 0
    ensures ReadExpiration(SentExpiration(ExpirationDataRule(Some(days)))) == ExpirationDataRule(Some(r as int64))
  {
  }

  /** The version number that was read goes back unchanged. */
  lemma VersionPassedBack(v: Option<int32>)
    ensures SentVersion(ReadVersion(v)) == v
  {
  }
}
