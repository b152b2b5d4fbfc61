# QuickLookIPA extraction core, in Dafny

QuickLookIPA inspects an iOS `.ipa` archive. It unzips the archive and picks
the first `.app` bundle under `Payload/`. It reports the bundle's version and
identifier from `Info.plist`. It decodes `embedded.mobileprovision` with
`security cms -D`, then scans the decoded property-list text for these:

- five string fields: Name, AppIDName, application-identifier, TeamName, UUID;
- two dates: CreationDate and ExpirationDate, the expiration flagged when
  fewer than zero days are left;
- the first `<data>` blob, which it treats as the distribution certificate.

The report is an ordered list of `(title, content, isWarning)` sections.
When the decoded profile reads as UTF-8, the list ends with the raw decoded text.

This model covers that pipeline. The text scanning is modelled over `seq<char>`:

- literal substring search;
- the leftmost lazy regular-expression match `<tag>(.*?)</tag>`, whose `.`
  stops at line terminators;
- the greedy `<data>([A-Za-z0-9+/=\n\r]+)</data>` match;
- `replacingOccurrences` as a single left-to-right pass;
- `trimmingCharacters(in:)` and `split(separator:)`.

The clock, the date parsers and formatters, the calendar, base64 decoding and
the `openssl` run are fields of `Profile.Env`. The unzip, directory listing,
file reads and `security` run are given as their outcomes in
`Inspection.Ipa`.

Files:

- `wrappers.dfy`: Option and Result.
- `text.dfy`: search, replace, trim and split.
- `decimal.dfy`: decimal rendering of day counts.
- `patterns.dfy`: the two regular expressions.
- `profile.dfy`: `formatProvisioningProfile` and `extractDate`.
- `profile_properties.dfy`: lemmas about the profile sections.
- `inspection.dfy`: `inspectIPA` as the class `Inspector`.
- `inspection_properties.dfy`: lemmas about the report.

Three behaviours of `inspectIPA` that the model keeps as the code has them:

- A malformed `Info.plist` is fatal. `PropertyListSerialization` is called
  with a throwing `try` inside the `do` block (ContentView.swift:114). So a
  parse error replaces the report with "Failed to inspect .ipa: …".
- A `security` run that cannot be launched throws in the same way
  (ContentView.swift:140). The plist sections already appended stay in
  place.
- The unzip exit status is never read (ContentView.swift:100-101). A failed
  unzip shows up only through the `Payload` listing and the `.app` search
  that follow (ContentView.swift:104-107).

## Model

| member | source | states |
|---|---|---|
| `Text.FindFrom` | QuickLookIPA/ContentView.swift:176 | the search from an index returns an occurrence at or after it with none between; None exactly when none occurs from there on |
| `Text.Find` | QuickLookIPA/ContentView.swift:176 | the result is an occurrence of the marker with none before it; None exactly when there is no occurrence |
| `Text.RemoveAll` | QuickLookIPA/ContentView.swift:164-165 | a `replacingOccurrences(of:with: "")` pass never lengthens the text (its other properties are the three lemmas below) |
| `Text.RemoveAllLength` | QuickLookIPA/ContentView.swift:180-181 | a `replacingOccurrences(of:with: "")` pass never lengthens the text, and shortens it exactly when the token occurs |
| `Text.RemoveAllSkipsPrefix` | QuickLookIPA/ContentView.swift:180-181 | text that holds no first character of the token is copied unchanged, and the pass continues after it |
| `Text.RemoveCharIsDrop` | QuickLookIPA/ContentView.swift:214 | removing `"\n"` deletes exactly the `\n` characters and keeps every other character in order |
| `Text.Drop` | QuickLookIPA/ContentView.swift:214 | a character is in the result iff it is in the input and is not the dropped one |
| `Text.Trim` | QuickLookIPA/ContentView.swift:182 | the result is an infix of the input with no class character at either end, and everything cut off is in the class (Foundation's whitespace set, U+200B included, with or without newlines); trimmed input is returned unchanged |
| `Text.ZeroWidthSpaceTrimmed` | QuickLookIPA/ContentView.swift:182 | a trailing U+200B ZERO WIDTH SPACE is trimmed off, as Foundation's whitespace set holds it |
| `Text.TrimIdempotent` | QuickLookIPA/ContentView.swift:182 | trimming twice equals trimming once |
| `Text.Split` | QuickLookIPA/ContentView.swift:229 | the pieces are non-empty and separator-free, and laid end to end they are the input without its separators |
| `Text.SplitWithoutSeparator` | QuickLookIPA/ContentView.swift:229 | text without the separator splits into itself alone, or into nothing when it is empty |
| `Text.SplitAppend` | QuickLookIPA/ContentView.swift:229 | a separator cuts the text there: the pieces of `a + [c] + b` are the pieces of `a` followed by those of `b`, so empty pieces are dropped |
| `Decimal.NatToDecimal` | QuickLookIPA/ContentView.swift:199 | the rendering is a non-empty digit string with no leading zero |
| `Decimal.IntToDecimal` | QuickLookIPA/ContentView.swift:205 | the rendering starts with '-' exactly for negative counts |
| `Decimal.NatToDecimalRoundTrip` | QuickLookIPA/ContentView.swift:199 | the digits rendered for a count read back as that count |
| `Decimal.SampleRenderings` | QuickLookIPA/ContentView.swift:199 | 10 renders as "10", 0 as "0" and -3 as "-3" |
| `Decimal.IntToDecimalRoundTrip` | QuickLookIPA/ContentView.swift:205 | the rendered day count reads back as the same integer |
| `Patterns.LazyClose` | QuickLookIPA/ContentView.swift:178 | `.*?` stops at the first closing tag, crossing no line terminator; None when a line terminator or the end comes first |
| `Patterns.ElementFrom` | QuickLookIPA/ContentView.swift:178 | the attempt at one start gives an end exactly when a `<tag>(.*?)</tag>` match starts there, and that end is the match's |
| `Patterns.FirstElement` | QuickLookIPA/ContentView.swift:178 | a match found starts at or after the index and lies within the text (which match it is: the next row) |
| `Patterns.FirstElementIsLeftmost` | QuickLookIPA/ContentView.swift:178 | the search finds a `<tag>(.*?)</tag>` match with no match starting earlier; it finds nothing exactly when no match starts at or after the index |
| `Patterns.FirstElementIs` | QuickLookIPA/ContentView.swift:178 | a match with none starting before it is the one the search returns |
| `Patterns.ElementParts` | QuickLookIPA/ContentView.swift:179 | the matched text is open tag, content and close tag |
| `Patterns.DataElementEnd` | QuickLookIPA/ContentView.swift:210 | a `<data>` match at a start ends right after the longest run of base64 and CR/LF characters, so it is unique there |
| `Patterns.DataElementFrom` | QuickLookIPA/ContentView.swift:210 | the attempt at one start gives an end exactly when a certificate match starts there |
| `Patterns.FirstDataElement` | QuickLookIPA/ContentView.swift:210 | a certificate match found starts at or after the index and lies within the text |
| `Patterns.FirstDataElementIsLeftmost` | QuickLookIPA/ContentView.swift:210 | the search finds the leftmost `<data>([A-Za-z0-9+/=\n\r]+)</data>` match; it finds nothing exactly when there is none |
| `Patterns.FirstDataElementIs` | QuickLookIPA/ContentView.swift:210 | a certificate match with none starting before it is the one the search returns |
| `Profile.ElementText` | QuickLookIPA/ContentView.swift:178-181 | the tag-stripped match text is no longer than the text after the search start |
| `Profile.TaggedValue` | QuickLookIPA/ContentView.swift:176-181 | a value needs an occurrence of the key marker, and is no longer than the text less the marker |
| `Profile.DisplayTitle` | QuickLookIPA/ContentView.swift:185 | `application-identifier` is shown as "Application Identifier (Provisioning Profile)"; every other key as itself |
| `Profile.FieldValue` | QuickLookIPA/ContentView.swift:176-182 | an extracted value has no leading or trailing whitespace or newline |
| `Profile.FieldSection` | QuickLookIPA/ContentView.swift:184-186 | a field section is titled with the key's display label and has a nil flag; it exists exactly when a value was extracted |
| `Profile.FieldSections` | QuickLookIPA/ContentView.swift:175-189 | the key loop emits at most one section per key, each with a nil flag and a key's display title |
| `Profile.ExtractDate` | QuickLookIPA/ContentView.swift:159-169 | a date comes only from parsing the tag-stripped text of the first `<date>` match after the first key marker |
| `Profile.CreationSection` | QuickLookIPA/ContentView.swift:197-201 | the creation section exists exactly when the creation date parses, and it has a nil flag |
| `Profile.ExpirationSection` | QuickLookIPA/ContentView.swift:203-208 | the expiration section exists exactly when the expiration date parses, and it always has a flag |
| `Profile.CertificateBase64` | QuickLookIPA/ContentView.swift:210-214 | there is a blob exactly when a `<data>` match exists, and the blob has no `\n` |
| `Profile.FirstContaining` | QuickLookIPA/ContentView.swift:229 | the first line that contains `notBefore`, with none before it; None when no line does |
| `Profile.FirstContainingIsFirst` | QuickLookIPA/ContentView.swift:229 | the search returns the first line that contains the text |
| `Profile.StartDateLine` | QuickLookIPA/ContentView.swift:229 | the chosen line is the first line containing `notBefore`; when no line does, the first line; None exactly when there are no lines |
| `Profile.CertificateSection` | QuickLookIPA/ContentView.swift:210-240 | a certificate section needs a `<data>` blob, is titled "Distribution Certificate Created" and is never a warning |
| `Profile.AppendFieldSections` | QuickLookIPA/ContentView.swift:172-189 | the loop over the fixed key list builds exactly the field sections, in key order |
| `Profile.AppendCreationSection` | QuickLookIPA/ContentView.swift:197-201 | the creation block appends exactly the creation section, when the date parses |
| `Profile.AppendExpirationSection` | QuickLookIPA/ContentView.swift:203-208 | the expiration block appends exactly the flagged expiration section, when the date parses |
| `Profile.ProfileSections` | QuickLookIPA/ContentView.swift:171-244 | the field sections come first, unchanged, then at most three date and certificate sections, and the last section is ("Raw XML", the input, nil) |
| `Profile.FormatProvisioningProfile` | QuickLookIPA/ContentView.swift:171-244 | the method returns the field sections, then creation, expiration, certificate, then the raw text |
| `ProfileProperties.StripTags` | QuickLookIPA/ContentView.swift:179-181 | removing the tags from an element whose content has no '<' leaves exactly the content |
| `ProfileProperties.TaggedValueOfEntry` | QuickLookIPA/ContentView.swift:176-181 | after the first occurrence of the marker, untagged text, then `<tag>content</tag>` on one line, whose gap and content hold no '<', yields exactly that content |
| `ProfileProperties.FieldOfEntry` | QuickLookIPA/ContentView.swift:176-186 | a well-formed `<key>K</key>…<string>V</string>` entry gives the section (label of K, V trimmed, nil) |
| `ProfileProperties.DateOfEntry` | QuickLookIPA/ContentView.swift:160-166 | a well-formed `<key>K</key>…<date>D</date>` entry is parsed from exactly D |
| `ProfileProperties.TaggedValuePresence` | QuickLookIPA/ContentView.swift:176-178 | a marker yields a value iff it occurs and a one-line element starts after its first occurrence |
| `ProfileProperties.FieldSectionPresence` | QuickLookIPA/ContentView.swift:176-187 | a string field yields a section iff its marker occurs and a `<string>` element follows the first one; otherwise nothing and no error |
| `ProfileProperties.ExtractDateAbsent` | QuickLookIPA/ContentView.swift:160 | with no key marker, no date |
| `ProfileProperties.FieldSectionsSplit` | QuickLookIPA/ContentView.swift:175-189 | the sections of a key list are those of its first part followed by those of the rest |
| `ProfileProperties.FieldSectionsInKeyOrder` | QuickLookIPA/ContentView.swift:173-189 | string-field sections come in the order Name, AppIDName, application-identifier, TeamName, UUID |
| `ProfileProperties.DisplayTitles` | QuickLookIPA/ContentView.swift:185 | only application-identifier is relabelled, to "Application Identifier (Provisioning Profile)" |
| `ProfileProperties.CreationContent` | QuickLookIPA/ContentView.swift:197-200 | the creation section reads label, " (", the days from the date to now (0 when the calendar gives none) and " days ago)"; the count shown reads back as that difference |
| `ProfileProperties.ExpirationContent` | QuickLookIPA/ContentView.swift:203-207 | the expiration section reads label, " (", the days from now to the date (0 when the calendar gives none) and " days left)"; the count shown reads back as that difference |
| `ProfileProperties.CreationTenDaysAgo` | QuickLookIPA/ContentView.swift:197-200 | a profile created ten days ago shows "(10 days ago)" |
| `ProfileProperties.ExpiredThreeDaysAgo` | QuickLookIPA/ContentView.swift:203-207 | a profile that expired three days ago shows "(-3 days left)" and is flagged |
| `ProfileProperties.ExpirationWithoutDifference` | QuickLookIPA/ContentView.swift:204-207 | when the calendar gives no day count, the expiration shows "(0 days left)" and is not flagged |
| `ProfileProperties.ExpirationFlag` | QuickLookIPA/ContentView.swift:204-207 | the expiration flag is true iff days-left < 0, so 0 days left is not a warning |
| `ProfileProperties.DaysTextReadsBack` | QuickLookIPA/ContentView.swift:199 | the date text is the label, " (", the day count and the suffix |
| `ProfileProperties.OnlyExpirationWarns` | QuickLookIPA/ContentView.swift:186-242 | every section other than the expiration date has a nil flag |
| `ProfileProperties.ProfileSectionsShape` | QuickLookIPA/ContentView.swift:242-243 | the last section is ("Raw XML", the input verbatim, nil), and there are 1 to 9 sections |
| `ProfileProperties.CertificateOfFirstBlock` | QuickLookIPA/ContentView.swift:210-214 | the blob is the content of the first `<data>` match with its `\n` characters removed |
| `ProfileProperties.CarriageReturnsKept` | QuickLookIPA/ContentView.swift:214 | a `\r` in the matched content stays in the blob |
| `Inspection.FirstApp` | QuickLookIPA/ContentView.swift:105 | the chosen entry ends in ".app" and no earlier entry does; None exactly when no entry does |
| `Inspection.VersionSection` | QuickLookIPA/ContentView.swift:117-121 | the version section exists iff both CFBundleShortVersionString and CFBundleVersion are strings |
| `Inspection.BundleIdSection` | QuickLookIPA/ContentView.swift:125-128 | the bundle-ID section exists iff CFBundleIdentifier is a string, and its content is that string |
| `Inspection.PlistSections` | QuickLookIPA/ContentView.swift:113-129 | at most two Info.plist sections, none flagged, and none unless the file parses to a dictionary |
| `Inspection.InspectReport` | QuickLookIPA/ContentView.swift:86-156 | an error leaves at most the two plist sections; no error means setup, the payload listing and the `.app` search all succeeded |
| `Inspection.Inspector.constructor` | QuickLookIPA/ContentView.swift:14-16 | the view starts with no sections and no error |
| `Inspection.Inspector.InspectIPA` | QuickLookIPA/ContentView.swift:86-156 | the state after a run is the report of the run; earlier sections and errors are cleared |
| `InspectionProperties.FirstAppIs` | QuickLookIPA/ContentView.swift:105 | the first `.app`-suffixed entry in listing order is the one chosen |
| `InspectionProperties.NoBundleIsFatal` | QuickLookIPA/ContentView.swift:105-107 | with no `.app` entry the report is "Could not find .app bundle inside the .ipa" and no sections |
| `InspectionProperties.MalformedPlistIsFatal` | QuickLookIPA/ContentView.swift:113-114 | an Info.plist that fails to parse ends the run with the failure message and no sections |
| `InspectionProperties.MissingProfileReport` | QuickLookIPA/ContentView.swift:132-152 | with no embedded profile the report has only the plist sections and the "No embedded.mobileprovision found." message |
| `InspectionProperties.DecodedProfileReport` | QuickLookIPA/ContentView.swift:143-148 | with a decoded profile the report is the plist sections then the profile sections, the raw text last, and no error |
| `InspectionProperties.VersionSectionOf` | QuickLookIPA/ContentView.swift:117-120 | the version section is ("App Version", "Version: V (Build B)", nil) |
| `InspectionProperties.OnlyExpirationWarnsInReport` | QuickLookIPA/ContentView.swift:120-147 | in the whole report only the expiration section can carry a flag |

## Left out

- The SwiftUI view, the drop handler and its `.ipa` extension check, and the rendering of flags as colours (ContentView.swift:4-84). These are presentation.
- The runs of `unzip`, `security cms -D` and `openssl x509`, the temp directory and the temp certificate file. The model takes their outcomes as inputs (`Inspection.Ipa`, `Profile.Env.opensslStartDate`). The source never deletes the temp directory, so there is no cleanup to model.
- `DispatchQueue.main.async`. `Inspector.InspectIPA` gives the state once the enqueued blocks have run. They run in enqueue order on the serial main queue. A second run started before the first finishes is not modelled.
- `ISO8601DateFormatter`, the openssl `DateFormatter`, the medium/short label formatter, `Calendar.current` day differences and `Date()`. They are fields of `Profile.Env`. `Date` is whole seconds (`Instant = int`), not a floating-point interval.
- `Data(base64Encoded:)` and `PropertyListSerialization` are foreign decoders. Base64 decoding is `Env.decodeBase64`. The property list arrives already decoded as `Inspection.Value`, with numbers as integers only.
- Swift `String` works on grapheme clusters, while the model works on Unicode scalars. So a `"\r\n"` pair, which Swift treats as one `Character`, is two characters here. That matters for `split(separator: "\n")`.
- `range(of:)` without options (ContentView.swift:160, :176), `replacingOccurrences(of:with:)` (ContentView.swift:164-165, :180-181, :212-214, :230), `contains` (ContentView.swift:229) and `hasSuffix` (ContentView.swift:105) use Foundation's string comparison, which can equate canonically equivalent sequences. The model compares characters literally.
- `Profile.CertificateSection`: its contract states the title, the nil flag and that a `<data>` blob is needed. It does not restate the decode, openssl and parse chain, which goes through the opaque `Env` fields.
