/** The cloud-storage tool: moving or copying one object into a folder of the
    default bucket, and loading the organisation rules from a YAML document.
    The storage client, the bucket's contents and the YAML parser are outside
    the model: what they answer is passed in as data. */
module CloudStorage {
  import opened Wrappers
  import opened Seqs
  import opened Strings
  import opened StableSort
  import opened YamlValue

  // ------------------------------------------------------------ perform_action

  /** What the environment answers: whether a storage client could be built,
      the `DEFAULT_BUCKET` setting, and whether the source object exists. */
  datatype StorageEnv = StorageEnv(clientAvailable: bool, defaultBucket: Option<string>, sourceExists: bool)

  /** A request sent to the storage service. */
  datatype StorageOp =
    | CopyBlob(bucket: string, sourceBlob: string, targetBlob: string)
    | DeleteBlob(bucket: string, blob: string)

  /** The JSON object returned on success. */
  datatype ActionReport = ActionReport(
    action: string, source: string, target: string, targetFolder: string,
    filename: string, status: string, message: string)

  /** Either an `{"error": ...}` answer, or the report and the requests that
      were sent, in order. */
  datatype ActionOutcome =
    | ActionFailed(error: string)
    | ActionDone(report: ActionReport, effects: seq<StorageOp>)

  const NoClientError := "Could not authenticate with GCP. Check GCP_SERVICE_ACCOUNT_KEY"
  const NoBucketError := "No bucket specified in file_uri and DEFAULT_BUCKET env var not set"

  predicate ValidAction(action: string) {
    action == "move" || action == "copy"
  }

  /** `os.path.join(a, b)` on POSIX with two arguments. */
  function PathJoin(a: string, b: string): string {
    if StartsWith(b, "/") then b
    else if a == [] || EndsWith(a, "/") then a + b
    else a + "/" + b
  }

  /** `f"gs://{bucket}/{path}"`. */
  function GsUri(bucket: string, path: string): string {
    "gs://" + bucket + "/" + path
  }

  /** The object name the file gets in the target folder. */
  function TargetBlobName(fileUri: string, targetUri: string): string {
    ReplaceAll(PathJoin(targetUri, Basename(fileUri)), "\\", "/")
  }

  /** `perform_action(file_uri, action, target_uri)`: validation of the
      arguments, then of the environment, then one copy request and, for a
      move, one delete request of the source. */
  function PerformAction(fileUri: string, action: string, targetUri: string, env: StorageEnv): (out: ActionOutcome)
    ensures out.ActionDone? ==> ValidAction(action) && EndsWith(targetUri, "/")
    ensures out.ActionDone? ==> out.report.status == "success" && out.report.action == action
  {
    if !ValidAction(action) then
      ActionFailed("Invalid action '" + action + "'. Must be 'move' or 'copy'")
    else if !EndsWith(targetUri, "/") then
      ActionFailed("Target URI must be a folder path ending with '/': " + targetUri)
    else if !env.clientAvailable then ActionFailed(NoClientError)
    else if env.defaultBucket.None? then ActionFailed(NoBucketError)
    else if !env.sourceExists then ActionFailed("Source file does not exist: " + fileUri)
    else Transfer(env.defaultBucket.value, fileUri, action, targetUri)
  }

  /** The copy, and for a move the delete, once every check has passed. */
  function Transfer(bucket: string, fileUri: string, action: string, targetUri: string): (out: ActionOutcome)
    ensures out.ActionDone? && out.effects != [] && out.effects[0].CopyBlob?
  {
    var targetBlob := TargetBlobName(fileUri, targetUri);
    var source := GsUri(bucket, fileUri);
    var target := GsUri(bucket, targetBlob);
    var verb := if action == "move" then "moved" else "copied";
    var report := ActionReport(action, source, target, GsUri(bucket, targetUri), Basename(fileUri), "success",
                               "File " + verb + " from " + source + " to " + target);
    ActionDone(report, [CopyBlob(bucket, fileUri, targetBlob)]
                       + (if action == "move" then [DeleteBlob(bucket, fileUri)] else []))
  }

  /** Argument errors are reported before anything is asked of the
      environment: the answer is the same whatever the environment. */
  lemma ArgumentErrorsIgnoreEnv(fileUri: string, action: string, targetUri: string, env1: StorageEnv, env2: StorageEnv)
    requires !ValidAction(action) || !EndsWith(targetUri, "/")
    ensures PerformAction(fileUri, action, targetUri, env1).ActionFailed?
    ensures PerformAction(fileUri, action, targetUri, env1) == PerformAction(fileUri, action, targetUri, env2)
  {
  }

  /** The action succeeds exactly when the arguments are valid, a client
      and a bucket are available and the source exists. */
  lemma ActionSucceedsIff(fileUri: string, action: string, targetUri: string, env: StorageEnv)
    ensures PerformAction(fileUri, action, targetUri, env).ActionDone? <==>
              ValidAction(action) && EndsWith(targetUri, "/") && env.clientAvailable
              && env.defaultBucket.Some? && env.sourceExists
  {
  }

  /** A successful action is the transfer from the default bucket. */
  lemma ActionIsTransfer(fileUri: string, action: string, targetUri: string, env: StorageEnv)
    requires PerformAction(fileUri, action, targetUri, env).ActionDone?
    ensures env.defaultBucket.Some?
    ensures PerformAction(fileUri, action, targetUri, env)
         == Transfer(env.defaultBucket.value, fileUri, action, targetUri)
  {
    ActionSucceedsIff(fileUri, action, targetUri, env);
  }

  /** The transfer copies the source into the target folder under its own
      file name, and deletes the source exactly when it is a move. */
  lemma TransferEffects(bucket: string, fileUri: string, action: string, targetUri: string)
    requires ValidAction(action)
    ensures var out := Transfer(bucket, fileUri, action, targetUri);
            && out.effects[0] == CopyBlob(bucket, fileUri, TargetBlobName(fileUri, targetUri))
            && (action == "move" ==> |out.effects| == 2 && out.effects[1] == DeleteBlob(bucket, fileUri))
            && (action == "copy" ==> |out.effects| == 1)
            && out.report.source == GsUri(bucket, fileUri)
            && out.report.target == GsUri(bucket, TargetBlobName(fileUri, targetUri))
            && out.report.targetFolder == GsUri(bucket, targetUri)
            && out.report.filename == Basename(fileUri)
            && out.report.message
               == "File " + (if action == "move" then "moved" else "copied") + " from "
                  + GsUri(bucket, fileUri) + " to " + GsUri(bucket, TargetBlobName(fileUri, targetUri))
  {
  }

  /** For a folder target, the target object is the folder followed by the
      source's file name, with every backslash of both made '/'. Without
      backslashes in the source path, the target's own file name is the
      source's file name. */
  lemma TargetKeepsFilename(fileUri: string, targetUri: string)
    requires EndsWith(targetUri, "/")
    ensures TargetBlobName(fileUri, targetUri)
         == ReplaceAll(targetUri, "\\", "/") + ReplaceAll(Basename(fileUri), "\\", "/")
    ensures '\\' !in fileUri ==>
              TargetBlobName(fileUri, targetUri) == ReplaceAll(targetUri, "\\", "/") + Basename(fileUri)
    ensures '\\' !in fileUri ==> Basename(TargetBlobName(fileUri, targetUri)) == Basename(fileUri)
  {
    var name := Basename(fileUri);
    assert !StartsWith(name, "/") by {
      if name != [] { assert name[0] in name; }
    }
    assert PathJoin(targetUri, name) == targetUri + name;
    ReplaceCharConcat(targetUri, name, '\\', "/");
    var folder := ReplaceAll(targetUri, "\\", "/");
    var dir := targetUri[..|targetUri| - 1];
    assert targetUri == dir + "/";
    ReplaceCharConcat(dir, "/", '\\', "/");
    assert EndsWith(folder, "/");
    if '\\' !in fileUri {
      assert '\\' !in name by {
        forall k | 0 <= k < |name| ensures name[k] != '\\' {
          assert name[k] == fileUri[|fileUri| - |name| + k];
        }
      }
      ContainsChar(name, '\\');
      ReplaceAllAbsent(name, "\\", "/");
      BasenameAfterSlash(folder, name);
    }
  }

  /** A backslash in the source path is not part of the file name kept in
      the target: it becomes a folder separator, so `a\\b` is stored as
      folder `a` holding `b`. */
  lemma BackslashBecomesFolder(a: string, b: string, targetUri: string)
    requires EndsWith(targetUri, "/") && '\\' !in targetUri
    requires '/' !in a && '\\' !in a && '/' !in b && '\\' !in b
    ensures TargetBlobName(a + "\\" + b, targetUri) == targetUri + a + "/" + b
    ensures Basename(TargetBlobName(a + "\\" + b, targetUri)) == b
  {
    var p := a + "\\" + b;
    assert '/' !in p;
    BasenameNoSlash(p);
    TargetKeepsFilename(p, targetUri);
    ContainsChar(targetUri, '\\');
    ReplaceAllAbsent(targetUri, "\\", "/");
    BackslashToSlash(a, b);
    Regroup(targetUri, a, "/", b);
    BasenameAfterSlash(targetUri + a + "/", b);
  }

  lemma Regroup(w: string, x: string, y: string, z: string)
    ensures w + (x + y + z) == w + x + y + z
  {
  }

  /** The one backslash between two backslash-free names becomes '/'. */
  lemma BackslashToSlash(a: string, b: string)
    requires '\\' !in a && '\\' !in b
    ensures ReplaceAll(a + "\\" + b, "\\", "/") == a + "/" + b
  {
    ReplaceCharConcat(a + "\\", b, '\\', "/");
    ReplaceCharConcat(a, "\\", '\\', "/");
    ContainsChar(a, '\\');
    ReplaceAllAbsent(a, "\\", "/");
    ContainsChar(b, '\\');
    ReplaceAllAbsent(b, "\\", "/");
    assert ReplaceAll("\\", "\\", "/") == "/";
  }

  // ------------------------------------------------------------ load_rules: gs://

  /** `config_uri.replace("gs://", "").split("/", 1)` unpacked into the bucket
      and object name; fewer than two pieces is an invalid URI. */
  function SplitGcsUri(configUri: string): (r: Result<(string, string), string>)
    ensures r.Success? <==> '/' in ReplaceAll(configUri, "gs://", "")
    ensures r.Success? ==> ('/' !in r.value.0
                            && r.value.0 + "/" + r.value.1 == ReplaceAll(configUri, "gs://", ""))
    ensures r.Failure? ==> r.error == "Invalid GCS URI format: " + configUri
  {
    var parts := SplitOnce(ReplaceAll(configUri, "gs://", ""), '/');
    if |parts| != 2 then Failure("Invalid GCS URI format: " + configUri)
    else Success((parts[0], parts[1]))
  }

  /** A URI built from a bucket without '/' and an object name, with no
      further "gs://" inside, splits back into that bucket and name. */
  lemma GcsUriRoundTrip(bucket: string, blob: string)
    requires '/' !in bucket
    requires !Contains(bucket + "/" + blob, "gs://")
    ensures SplitGcsUri(GsUri(bucket, blob)) == Success((bucket, blob))
  {
    var rest := bucket + "/" + blob;
    var uri := GsUri(bucket, blob);
    assert uri == "gs://" + rest;
    assert uri[..5] == "gs://" && uri[5..] == rest;
    ReplaceAllAbsent(rest, "gs://", "");
    assert ReplaceAll(uri, "gs://", "") == rest;
    assert rest[|bucket|] == '/';
    var r := SplitGcsUri(uri);
    CutUnique(r.value.0, r.value.1, bucket, blob, '/');
  }

  // ------------------------------------------------------------ load_rules: validation

  /** Why a loaded document is refused. `TypeFailure` is a Python `TypeError`
      raised while checking or sorting the rules, which the tool reports as
      "Failed to load rules: ...". */
  datatype RulesError =
    | NoRulesKey
    | RulesNotAList
    | MissingFields(index: nat, fields: seq<string>)
    | InvalidAction(index: nat, action: Yaml)
    | TypeFailure

  /** The success answer: the rule count and the rules, highest priority first. */
  datatype RulesLoaded = RulesLoaded(ruleCount: nat, rules: seq<Yaml>)

  const RequiredFields: seq<string> := ["pattern", "target", "action"]

  /** The text of each refusal. */
  function RulesErrorText(e: RulesError): string {
    match e
    case NoRulesKey => "Invalid config format. Expected 'rules' key at root level"
    case RulesNotAList => "Invalid config format. 'rules' must be a list"
    case MissingFields(i, fields) =>
      "Rule " + IntToString(i) + " is missing required fields: " + PyStrList(fields)
    case InvalidAction(i, YStr(a)) =>
      "Rule " + IntToString(i) + " has invalid action '" + a + "'. Must be 'move' or 'copy'"
    case InvalidAction(i, _) =>
      "Rule " + IntToString(i) + " has invalid action. Must be 'move' or 'copy'"
    case TypeFailure => "Failed to load rules"
  }

  /** `str(list_of_str)` for strings without quotes in them. */
  function PyStrList(xs: seq<string>): string {
    "[" + PyStrItems(xs) + "]"
  }

  function PyStrItems(xs: seq<string>): string {
    if xs == [] then ""
    else if |xs| == 1 then "'" + xs[0] + "'"
    else "'" + xs[0] + "', " + PyStrItems(xs[1..])
  }

  /** `[field for field in required_fields if field not in rule]`, or `None`
      where `in` raises because the rule is not a container. */
  function MissingOf(rule: Yaml): (r: Option<seq<string>>)
    ensures r.None? <==> !(rule.YMap? || rule.YList? || rule.YStr?)
    ensures r.Some? ==> forall f :: f in r.value <==> f in RequiredFields && MemberOf(f, rule) == Some(false)
  {
    if MemberOf("pattern", rule).None? then None
    else
      var p := (f: string) => MemberOf(f, rule) == Some(false);
      var missing := Filter(RequiredFields, p);
      assert forall f :: f in missing <==> f in RequiredFields && p(f) by {
        forall f { FilterMembership(RequiredFields, p, f); }
      }
      Some(missing)
  }

  /** The checks the loop makes on rule `i`: its missing fields, then its
      action, which is read by subscript (a `TypeError` for a list or a
      string that merely contains the three field names). */
  function RuleError(i: nat, rule: Yaml): (r: Option<RulesError>)
    ensures r.Some? && (r.value.MissingFields? || r.value.InvalidAction?) ==> r.value.index == i
  {
    match MissingOf(rule)
    case None => Some(TypeFailure)
    case Some(missing) =>
      if missing != [] then Some(MissingFields(i, missing))
      else if !rule.YMap? then Some(TypeFailure)
      else
        assert "action" !in missing;
        var action := Get(rule.entries, "action").value;
        if action == YStr("move") || action == YStr("copy") then None
        else Some(InvalidAction(i, action))
  }

  /** A rule that the loop lets through, stated directly. */
  predicate WellFormedRule(rule: Yaml) {
    && rule.YMap?
    && HasKey(rule.entries, "pattern") && HasKey(rule.entries, "target") && HasKey(rule.entries, "action")
    && Get(rule.entries, "action").value in {YStr("move"), YStr("copy")}
  }

  /** The per-rule check passes exactly for well-formed rules. */
  lemma RuleErrorMeaning(i: nat, rule: Yaml)
    ensures RuleError(i, rule).None? <==> WellFormedRule(rule)
  {
    if rule.YMap? {
      var missing := MissingOf(rule).value;
      var has := HasKey(rule.entries, "pattern") && HasKey(rule.entries, "target")
                 && HasKey(rule.entries, "action");
      assert "pattern" in RequiredFields && "target" in RequiredFields && "action" in RequiredFields;
      assert missing == [] <==> has by {
        if missing != [] {
          assert missing[0] in missing;
        }
      }
    }
  }

  /** The outcome of the per-rule check of every rule, in order. */
  function RuleChecks(rules: seq<Yaml>): (checks: seq<Option<RulesError>>)
    ensures |checks| == |rules|
    ensures forall j :: 0 <= j < |rules| ==> checks[j] == RuleError(j, rules[j])
  {
    seq(|rules|, j requires 0 <= j < |rules| => RuleError(j, rules[j]))
  }

  /** The first failure among `checks[i..]`. */
  function FirstFailureFrom<E>(checks: seq<Option<E>>, i: nat): Option<E>
    requires i <= |checks|
    decreases |checks| - i
  {
    if i == |checks| then None
    else if checks[i].Some? then checks[i]
    else FirstFailureFrom(checks, i + 1)
  }

  /** What the rule loop reports. */
  function FirstRuleError(rules: seq<Yaml>): Option<RulesError> {
    FirstFailureFrom(RuleChecks(rules), 0)
  }

  /** The first failure is a failure that no earlier check had, and there is
      none exactly when every check passes. */
  lemma {:induction false} FirstFailureIsFirst<E>(checks: seq<Option<E>>, i: nat)
    requires i <= |checks|
    ensures FirstFailureFrom(checks, i).None? <==> forall j :: i <= j < |checks| ==> checks[j].None?
    ensures FirstFailureFrom(checks, i).Some? ==>
              exists j :: i <= j < |checks| && checks[j] == FirstFailureFrom(checks, i)
                       && forall k :: i <= k < j ==> checks[k].None?
    decreases |checks| - i
  {
    if i < |checks| && checks[i].None? {
      FirstFailureIsFirst(checks, i + 1);
      if FirstFailureFrom(checks, i).Some? {
        var j :| i + 1 <= j < |checks| && checks[j] == FirstFailureFrom(checks, i + 1)
                 && forall k :: i + 1 <= k < j ==> checks[k].None?;
        assert forall k :: i <= k < j ==> checks[k].None?;
      }
    }
  }

  /** `for i, rule in enumerate(rules)` with its early returns. */
  method CheckRules(rules: seq<Yaml>) returns (err: Option<RulesError>)
    ensures err == FirstRuleError(rules)
  {
    var i := 0;
    while i < |rules|
      invariant 0 <= i <= |rules|
      invariant FirstRuleError(rules) == FirstFailureFrom(RuleChecks(rules), i)
    {
      var e := RuleError(i, rules[i]);
      if e.Some? {
        return e;
      }
      i := i + 1;
    }
    return None;
  }

  /** `x.get("priority", 0)` as a number; `None` for a value that raises a
      `TypeError` when compared with another priority. */
  function PriorityOf(rule: Yaml): Option<int> {
    if !rule.YMap? then None
    else match GetOr(rule.entries, "priority", YInt(0))
      case YInt(n) => Some(n)
      case YBool(b) => Some(if b then 1 else 0)
      case _ => None
  }

  /** The sort key; only consulted when every priority is a number. */
  function Priority(rule: Yaml): int {
    match PriorityOf(rule)
    case Some(n) => n
    case None => 0
  }

  /** Everything `load_rules` does after `yaml.safe_load`. */
  function ValidateRules(config: Yaml): (r: Result<RulesLoaded, RulesError>)
    ensures r.Success? ==> config.YMap? && r.value.ruleCount == |r.value.rules|
  {
    if !config.YMap? || !HasKey(config.entries, "rules") then Failure(NoRulesKey)
    else match Get(config.entries, "rules").value
      case YList(rules) =>
        (match FirstRuleError(rules)
         case Some(e) => Failure(e)
         case None =>
           if |rules| >= 2 && exists r :: r in rules && PriorityOf(r).None? then Failure(TypeFailure)
           else
             var sorted := SortByKeyDesc(rules, Priority);
             Success(RulesLoaded(|sorted|, sorted)))
      case _ => Failure(RulesNotAList)
  }

  /** A document that is not a mapping with a "rules" key, or whose rules
      are not a list, is refused before any rule is looked at. */
  lemma ConfigShapeErrors(config: Yaml)
    ensures !config.YMap? || !HasKey(config.entries, "rules") ==> ValidateRules(config) == Failure(NoRulesKey)
    ensures config.YMap? && HasKey(config.entries, "rules") && !Get(config.entries, "rules").value.YList?
            ==> ValidateRules(config) == Failure(RulesNotAList)
  {
  }

  /** A successful load answers every rule of the document, each well formed,
      in descending priority, rules of equal priority in document order, with
      the count of rules. */
  lemma RulesLoadedShape(config: Yaml, k: int)
    requires ValidateRules(config).Success?
    ensures config.YMap? && HasKey(config.entries, "rules") && Get(config.entries, "rules").value.YList?
    ensures var rules := Get(config.entries, "rules").value.items;
            var loaded := ValidateRules(config).value;
            && loaded.ruleCount == |loaded.rules| == |rules|
            && multiset(loaded.rules) == multiset(rules)
            && (forall r :: r in loaded.rules ==> WellFormedRule(r))
            && SortedDesc(loaded.rules, Priority)
            && Filter(loaded.rules, KeyIs(Priority, k)) == Filter(rules, KeyIs(Priority, k))
  {
    var rules := Get(config.entries, "rules").value.items;
    var loaded := ValidateRules(config).value;
    FirstFailureIsFirst(RuleChecks(rules), 0);
    forall r | r in loaded.rules ensures WellFormedRule(r) {
      assert r in multiset(loaded.rules);
      var j :| 0 <= j < |rules| && rules[j] == r;
      assert RuleChecks(rules)[j] == RuleError(j, r);
      RuleErrorMeaning(j, r);
    }
    SortIsSorted(rules, Priority);
    SortIsStable(rules, Priority, k);
  }

  /** A refusal of rule `i` means every earlier rule passed and rule `i`
      did not. */
  lemma RuleRefusalIsFirst(config: Yaml, i: nat)
    requires ValidateRules(config).Failure?
    requires ValidateRules(config).error.MissingFields? || ValidateRules(config).error.InvalidAction?
    requires ValidateRules(config).error.index == i
    ensures config.YMap? && HasKey(config.entries, "rules") && Get(config.entries, "rules").value.YList?
    ensures var rules := Get(config.entries, "rules").value.items;
            && i < |rules| && !WellFormedRule(rules[i])
            && forall k :: 0 <= k < i ==> WellFormedRule(rules[k])
  {
    var e := ValidateRules(config).error;
    assert config.YMap? && HasKey(config.entries, "rules");
    var rules := Get(config.entries, "rules").value.items;
    assert FirstRuleError(rules) == Some(e);
    FirstRuleErrorIsFirst(rules, e);
  }

  /** The per-rule refusal the loop reports comes from the first rule that
      is not well formed. */
  lemma FirstRuleErrorIsFirst(rules: seq<Yaml>, e: RulesError)
    requires FirstRuleError(rules) == Some(e)
    requires e.MissingFields? || e.InvalidAction?
    ensures e.index < |rules| && !WellFormedRule(rules[e.index])
    ensures forall k :: 0 <= k < e.index ==> WellFormedRule(rules[k])
  {
    var checks := RuleChecks(rules);
    FirstFailureIsFirst(checks, 0);
    var j :| 0 <= j < |rules| && checks[j] == Some(e)
             && forall k :: 0 <= k < j ==> checks[k].None?;
    assert RuleError(j, rules[j]) == Some(e);
    RuleErrorMeaning(j, rules[j]);
    forall k | 0 <= k < j ensures WellFormedRule(rules[k]) {
      assert checks[k] == RuleError(k, rules[k]);
      RuleErrorMeaning(k, rules[k]);
    }
  }
}
