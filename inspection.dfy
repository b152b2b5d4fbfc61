/**
 * `inspectIPA`: picks the app bundle out of the unpacked payload, reports
 * its Info.plist version and identifier, and appends the provisioning
 * profile sections. The unpacking, file reads and tool runs are given as
 * their outcomes.
 */
module Inspection {
  import opened Wrappers
  import opened Profile

  /** A decoded property-list value. */
  datatype Value =
    | Str(s: string)
    | Integer(i: int)
    | Boolean(b: bool)
    | Date(at: Instant)
    | Data(bytes: seq<bv8>)
    | Array(items: seq<Value>)
    | Dict(entries: map<string, Value>)

  /** What reading and decoding `Info.plist` gives. */
  datatype PlistFile =
    | Unreadable                       // `try? Data(contentsOf:)` is nil
    | Malformed(description: string)   // `PropertyListSerialization` throws
    | Parsed(root: Value)

  /** What becomes of `embedded.mobileprovision`. */
  datatype ProfileFile =
    | Absent                           // the file does not exist
    | LaunchFailed(description: string) // `try decodeTask.run()` throws
    | Decoded(output: Option<string>)  // the tool's stdout, read as UTF-8 (None if not UTF-8)

  /** The outcomes of the file-system and tool steps for one archive. */
  datatype Ipa = Ipa(
    setupFailure: Option<string>,            // creating the temp directory or launching unzip threw
    payload: Result<seq<string>, string>,    // `contentsOfDirectory(Payload)`, or its thrown error
    infoPlists: map<string, PlistFile>,      // per bundle name; a missing name reads as Unreadable
    profiles: map<string, ProfileFile>)      // per bundle name; a missing name reads as Absent

  /** The state the view shows: the sections and the error message. */
  datatype Report = Report(sections: seq<Section>, errorMessage: Option<string>)

  const AppSuffix: string := ".app"
  const NoBundleMessage: string := "Could not find .app bundle inside the .ipa"
  const NoProfileMessage: string := "No embedded.mobileprovision found."
  const FailurePrefix: string := "Failed to inspect .ipa: "
  const VersionTitle: string := "App Version"
  const BundleIdTitle: string := "Bundle ID (Info.plist)"

  predicate HasSuffix(s: string, suffix: string) {
    |suffix| <= |s| && s[|s| - |suffix|..] == suffix
  }

  /** `appPaths.first(where: { $0.hasSuffix(".app") })`, as an index. */
  function FirstApp(entries: seq<string>): (r: Option<nat>)
    ensures r.Some? ==> r.value < |entries| && HasSuffix(entries[r.value], AppSuffix)
    ensures r.Some? ==> forall j :: 0 <= j < r.value ==> !HasSuffix(entries[j], AppSuffix)
    ensures r.None? ==> forall j :: 0 <= j < |entries| ==> !HasSuffix(entries[j], AppSuffix)
  {
    if |entries| == 0 then None
    else if HasSuffix(entries[0], AppSuffix) then Some(0)
    else match FirstApp(entries[1..])
      case None => None
      case Some(k) => Some(k + 1)
  }

  function VersionContent(version: string, build: string): string {
    "Version: " + version + " (Build " + build + ")"
  }

  /** Present only when both version keys hold strings. */
  function VersionSection(plist: map<string, Value>): (r: Option<Section>)
    ensures r.Some? <==> ("CFBundleShortVersionString" in plist && plist["CFBundleShortVersionString"].Str?
                          && "CFBundleVersion" in plist && plist["CFBundleVersion"].Str?)
    ensures r.Some? ==> r.value.title == VersionTitle && r.value.isWarning == None
  {
    if "CFBundleShortVersionString" in plist && plist["CFBundleShortVersionString"].Str?
       && "CFBundleVersion" in plist && plist["CFBundleVersion"].Str?
    then Some(Section(VersionTitle,
                      VersionContent(plist["CFBundleShortVersionString"].s, plist["CFBundleVersion"].s), None))
    else None
  }

  function BundleIdSection(plist: map<string, Value>): (r: Option<Section>)
    ensures r.Some? <==> ("CFBundleIdentifier" in plist && plist["CFBundleIdentifier"].Str?)
    ensures r.Some? ==> r == Some(Section(BundleIdTitle, plist["CFBundleIdentifier"].s, None))
  {
    if "CFBundleIdentifier" in plist && plist["CFBundleIdentifier"].Str?
    then Some(Section(BundleIdTitle, plist["CFBundleIdentifier"].s, None))
    else None
  }

  /** The Info.plist sections; a file that is unreadable or not a dictionary gives none. */
  function PlistSections(file: PlistFile): (r: seq<Section>)
    ensures |r| <= 2
    ensures forall i :: 0 <= i < |r| ==> r[i].isWarning == None
    ensures !(file.Parsed? && file.root.Dict?) ==> r == []
  {
    if file.Parsed? && file.root.Dict? then
      Emit(VersionSection(file.root.entries)) + Emit(BundleIdSection(file.root.entries))
    else []
  }

  function PlistOf(ipa: Ipa, app: string): PlistFile {
    if app in ipa.infoPlists then ipa.infoPlists[app] else Unreadable
  }

  function ProfileOf(ipa: Ipa, app: string): ProfileFile {
    if app in ipa.profiles then ipa.profiles[app] else Absent
  }

  /** The report once `inspectIPA` and all the main-queue updates it enqueued have run. */
  function InspectReport(ipa: Ipa, env: Env): (r: Report)
    ensures r.errorMessage.Some? ==> |r.sections| <= 2
    ensures r.errorMessage.None? ==>
              ipa.setupFailure.None? && ipa.payload.Success? && FirstApp(ipa.payload.value).Some?
  {
    if ipa.setupFailure.Some? then Report([], Some(FailurePrefix + ipa.setupFailure.value))
    else match ipa.payload
      case Failure(d) => Report([], Some(FailurePrefix + d))
      case Success(entries) =>
        match FirstApp(entries)
        case None => Report([], Some(NoBundleMessage))
        case Some(i) =>
          var app := entries[i];
          var plist := PlistOf(ipa, app);
          if plist.Malformed? then Report([], Some(FailurePrefix + plist.description))
          else
            var head := PlistSections(plist);
            match ProfileOf(ipa, app)
            case Absent => Report(head, Some(NoProfileMessage))
            case LaunchFailed(d) => Report(head, Some(FailurePrefix + d))
            case Decoded(None) => Report(head, None)
            case Decoded(Some(out)) => Report(head + ProfileSections(env, out), None)
  }

  /** The view's state, as `inspectIPA` updates it. */
  class Inspector {
    var sections: seq<Section>
    var errorMessage: Option<string>

    constructor ()
      ensures sections == [] && errorMessage == None
    {
      sections := [];
      errorMessage := None;
    }

    method InspectIPA(ipa: Ipa, env: Env)
      modifies this
      ensures Report(sections, errorMessage) == InspectReport(ipa, env)
    {
      errorMessage := None;
      sections := [];

      if ipa.setupFailure.Some? {
        errorMessage := Some(FailurePrefix + ipa.setupFailure.value);
        return;
      }
      if ipa.payload.Failure? {
        errorMessage := Some(FailurePrefix + ipa.payload.error);
        return;
      }
      var appPaths := ipa.payload.value;
      var appIndex := FirstApp(appPaths);
      if appIndex.None? {
        errorMessage := Some(NoBundleMessage);
        return;
      }
      var appName := appPaths[appIndex.value];

      var plistFile := PlistOf(ipa, appName);
      if plistFile.Malformed? {
        errorMessage := Some(FailurePrefix + plistFile.description);
        return;
      }
      if plistFile.Parsed? && plistFile.root.Dict? {
        var plist := plistFile.root.entries;
        if "CFBundleShortVersionString" in plist && plist["CFBundleShortVersionString"].Str?
           && "CFBundleVersion" in plist && plist["CFBundleVersion"].Str? {
          var bundleVersion := plist["CFBundleShortVersionString"].s;
          var buildNumber := plist["CFBundleVersion"].s;
          sections := sections + [Section(VersionTitle, "Version: " + bundleVersion + " (Build " + buildNumber + ")", None)];
        }
        if "CFBundleIdentifier" in plist && plist["CFBundleIdentifier"].Str? {
          sections := sections + [Section(BundleIdTitle, plist["CFBundleIdentifier"].s, None)];
        }
      }
      assert sections == PlistSections(plistFile);

      match ProfileOf(ipa, appName)
      case Absent =>
        errorMessage := Some(NoProfileMessage);
      case LaunchFailed(d) =>
        errorMessage := Some(FailurePrefix + d);
      case Decoded(output) =>
        if output.Some? {
          var formattedSections := FormatProvisioningProfile(env, output.value);
          sections := sections + formattedSections;
        }
    }
  }
}
