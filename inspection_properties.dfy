/** What `inspectIPA` promises about the bundle it picks and the report it leaves. */
module InspectionProperties {
  import opened Wrappers
  import opened Profile
  import opened ProfileProperties
  import opened Inspection

  /** The archive stages succeeded and `entries[i]` is the first `.app` entry. */
  predicate PicksBundle(ipa: Ipa, i: nat) {
    ipa.setupFailure.None? && ipa.payload.Success? && i < |ipa.payload.value|
    && HasSuffix(ipa.payload.value[i], AppSuffix)
    && forall j :: 0 <= j < i ==> !HasSuffix(ipa.payload.value[j], AppSuffix)
  }

  lemma FirstAppIs(entries: seq<string>, i: nat)
    requires i < |entries| && HasSuffix(entries[i], AppSuffix)
    requires forall j :: 0 <= j < i ==> !HasSuffix(entries[j], AppSuffix)
    ensures FirstApp(entries) == Some(i)
  {
  }

  /** Without a `.app` entry the run ends with the bundle error and no sections. */
  lemma NoBundleIsFatal(ipa: Ipa, env: Env)
    requires ipa.setupFailure.None? && ipa.payload.Success?
    requires forall j :: 0 <= j < |ipa.payload.value| ==> !HasSuffix(ipa.payload.value[j], AppSuffix)
    ensures InspectReport(ipa, env) == Report([], Some(NoBundleMessage))
  {
  }

  /** A malformed Info.plist in the chosen bundle is fatal (the read uses `try`, not `try?`). */
  lemma MalformedPlistIsFatal(ipa: Ipa, env: Env, i: nat, d: string)
    requires PicksBundle(ipa, i)
    requires PlistOf(ipa, ipa.payload.value[i]) == Malformed(d)
    ensures InspectReport(ipa, env) == Report([], Some(FailurePrefix + d))
  {
    FirstAppIs(ipa.payload.value, i);
  }

  /**
   * Without a profile in the chosen bundle the report holds the plist
   * sections only, and the absence message.
   */
  lemma MissingProfileReport(ipa: Ipa, env: Env, i: nat)
    requires PicksBundle(ipa, i)
    requires !PlistOf(ipa, ipa.payload.value[i]).Malformed?
    requires ProfileOf(ipa, ipa.payload.value[i]) == Absent
    ensures InspectReport(ipa, env) == Report(PlistSections(PlistOf(ipa, ipa.payload.value[i])), Some(NoProfileMessage))
    ensures forall s :: s in InspectReport(ipa, env).sections ==> s.title in {VersionTitle, BundleIdTitle}
  {
    FirstAppIs(ipa.payload.value, i);
  }

  /**
   * With a decoded profile the report is the chosen bundle's plist sections
   * followed by the profile sections, the raw text last, and no error.
   */
  lemma DecodedProfileReport(ipa: Ipa, env: Env, i: nat, out: string)
    requires PicksBundle(ipa, i)
    requires !PlistOf(ipa, ipa.payload.value[i]).Malformed?
    requires ProfileOf(ipa, ipa.payload.value[i]) == Decoded(Some(out))
    ensures var r := InspectReport(ipa, env);
            r.errorMessage == None
            && r.sections == PlistSections(PlistOf(ipa, ipa.payload.value[i])) + ProfileSections(env, out)
            && r.sections[|r.sections| - 1] == Section(RawTitle, out, None)
  {
    FirstAppIs(ipa.payload.value, i);
    ProfileSectionsShape(env, out);
  }

  /** The version section reads exactly "Version: V (Build B)". */
  lemma VersionSectionOf(plist: map<string, Value>, v: string, b: string)
    requires "CFBundleShortVersionString" in plist && plist["CFBundleShortVersionString"] == Str(v)
    requires "CFBundleVersion" in plist && plist["CFBundleVersion"] == Str(b)
    ensures VersionSection(plist) == Some(Section("App Version", "Version: " + v + " (Build " + b + ")", None))
  {
  }

  /** Across the whole report, only the expiration section can carry a flag. */
  lemma OnlyExpirationWarnsInReport(ipa: Ipa, env: Env)
    ensures OnlyWarnsAs(InspectReport(ipa, env).sections, ExpirationTitle)
  {
    if ipa.setupFailure.None? && ipa.payload.Success? && FirstApp(ipa.payload.value).Some? {
      var app := ipa.payload.value[FirstApp(ipa.payload.value).value];
      var head := PlistSections(PlistOf(ipa, app));
      assert OnlyWarnsAs(head, ExpirationTitle);
      match ProfileOf(ipa, app)
      case Decoded(Some(out)) =>
        if !PlistOf(ipa, app).Malformed? {
          OnlyExpirationWarns(env, out);
          OnlyWarnsAsAppend(head, ProfileSections(env, out), ExpirationTitle);
        }
      case _ =>
    }
  }

}
