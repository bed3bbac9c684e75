# act: a verified model of its self-contained logic

`act` is a command-line helper for AWS accounts. It assumes roles, renews
access keys, builds ECR login commands, looks addresses up in WAF web ACLs
and scales load-test Auto Scaling groups. Most of it is glue around the AWS
SDK. This project models the parts that decide something on their own, and
proves what they promise:

- **Address validation** (`Addresses`). `IsValidAddress` runs its checks in
  a fixed order:
  1. exactly three dots;
  2. at most one slash;
  3. a CIDR suffix in 0..32, after trimming;
  4. four octets in 0..255.

  `ParseTargetList` validates every address and appends `/32` to bare
  addresses. `strconv.Atoi` is written out in `Strconv`, with its sign, its
  fast path and its 64-bit range check. Go's `strings.Count`, `Split`,
  `TrimSpace`, `Contains` and `ToLower` are in `GoStrings`.
- **WAF membership** (`AclSearch`, `Waf`).
  - `CheckIfTargetExistsInACL` is the nested rule, then IP set, then IP list
    search. Membership is literal string equality, and the first match wins.
  - `DescribeWebACL` assembles the ACL snapshot from three lookups, which
    are passed in as total functions.
  - `SelectACL` and `ParseWebACLID` handle the `name / id` option strings.
- **Credential rotation** (`CredentialRotation`). `RenewCredentials` works
  on the server's key list and the credentials file, and logs every IAM and
  file mutation. Its ordering rule:
  - with two keys on the server, it deletes the current key, then creates a
    new one and saves it;
  - otherwise it creates a new key, saves it, and then deletes the current
    key.

  The method is an `Account` class whose fields change in place. It is
  proved equal to a specification function, and the properties are proved
  about that function.
- **Setup** (`AssumeSetup`): alias and ARN resolution, `CheckTarget`, and
  the choice of duration.
- **Small parsers and selectors**:
  - the ECR token split and the docker login command (`EcrCommand`);
  - `act exec` argument parsing (`Args`);
  - duration defaulting, profile selection and the init template (`Config`);
  - access-key expiry (`Iam`);
  - the Auto Scaling group name filter and the capacity requests (`Asg`);
  - the helpers in `pkg/tools/tools.go` (`Tools`).

`Schema`, `Errors` and `Wrappers` hold the shared records, the error values
(one constructor per distinct message of the source) and `Option`/`Result`.

One quirk follows from Go's zero-value map reads. Once any alias is
configured, a target that is not an alias is looked up first under the
empty role name, because `Alias[target]` reads as `""`. A role registered
under `""` therefore wins over the target's own entry
(`AssumeSetup.UnaliasedReadsEmptyRoleName`). The model keeps this
behaviour.

Another hazard is in `RenewCredentials`. With two keys, the current key is
deleted before the new one is saved. If saving then fails, the file still
names a key that no longer exists (`CredentialRotation.TwoKeysFailedSave`).

## Model

| member | source | states |
|---|---|---|
| Addresses.SuffixError | pkg/runner/runner.go:519-528 | the suffix passes exactly when its trimmed text is an integer in 0..32; otherwise the error is Atoi's, or the CIDR range error |
| Addresses.ClassError | pkg/runner/runner.go:531-539 | an octet passes exactly when it is an integer in 0..255 (untrimmed); otherwise the error is Atoi's, or the class range error |
| Addresses.FirstClassError | pkg/runner/runner.go:530-540 | no error exactly when every octet is in range; an error is the error of some octet |
| Addresses.IsValidAddress | pkg/runner/runner.go:509-543 | the early-return loop over the checks returns the result of the specification of the ordered checks |
| Addresses.DotCountFirst | pkg/runner/runner.go:510-512 | the wrong-address error comes out exactly when the dot count is not 3, whatever else is wrong |
| Addresses.SlashCountSecond | pkg/runner/runner.go:514-517 | with three dots, the slash error comes out exactly when there is more than one `/` |
| Addresses.ClassErrorsAreClassErrors | pkg/runner/runner.go:530-540 | the octet checks never produce the slash error |
| Addresses.SuffixBeforeClasses | pkg/runner/runner.go:519-530 | a bad suffix is reported before any octet is looked at |
| Addresses.AddressCheckMeaning | pkg/runner/runner.go:509-543 | an address is accepted iff it has 3 dots, at most one slash, a trimmed suffix in 0..32 when the slash is present, and every octet in 0..255 |
| Addresses.AcceptedHasFourClasses | pkg/runner/runner.go:510-530 | an accepted address has exactly four octets before the slash |
| Addresses.DottedQuadAccepted | pkg/runner/runner.go:509-543 | four in-range numbers joined by dots are accepted |
| Addresses.DottedQuadBlockAccepted | pkg/runner/runner.go:509-543 | four in-range numbers with a suffix whose trimmed value is in 0..32 are accepted |
| Addresses.Normalize | pkg/runner/runner.go:498-500 | normalising only appends, at most three characters, to the address; NormalizeMeaning says when `/32` is appended |
| Addresses.NormalizeMeaning | pkg/runner/runner.go:498-502 | an entry with a `/` is kept as is; otherwise `/32` is appended |
| Addresses.NormalizeIdempotent | pkg/runner/runner.go:498-502 | normalising twice is normalising once |
| Addresses.NormalizeKeepsAccepted | pkg/runner/runner.go:498-502 | appending `/32` to an accepted address keeps it accepted |
| Addresses.ParseTargetList | pkg/runner/runner.go:491-506 | Ok iff every entry is accepted; then one normalised entry per input, in order; an error is the check error of some entry |
| Addresses.ParsedTargetsAccepted | pkg/runner/runner.go:491-506 | every entry of a parsed list is accepted and carries a suffix |
| Addresses.AcceptsBlock | pkg/runner/runner_test.go:14-16 | `10.10.10.10/30` is accepted |
| Addresses.RejectsWideSuffix | pkg/runner/runner_test.go:18-20 | `10.10.10.10/33` is rejected with the CIDR range error |
| Addresses.RejectsTwoDots | pkg/runner/runner_test.go:22-24 | `123.251.129/30` is rejected with the wrong-address error |
| Addresses.TwoDotsRejected | pkg/runner/runner.go:510-512 | any three dot-free pieces with a dot-free suffix hold two dots and get the wrong-address error |
| Addresses.RejectsWideClass | pkg/runner/runner_test.go:26-28 | `123.421.0.0/32` is rejected with the class range error |
| Addresses.PaddedClassRejected | pkg/runner/runner.go:532 | an octet with leading white space is an Atoi syntax error, because octets are not trimmed |
| Addresses.SuffixPaddingIgnored | pkg/runner/runner.go:520 | white space around the suffix does not change its check |
| Addresses.SameTrimSameCheck | pkg/runner/runner.go:520 | two suffixes with the same trimmed text check the same |
| AclSearch.DataSetsNone | pkg/runner/runner.go:578-588 | the set loop finds nothing iff no set of the rule lists the address |
| AclSearch.DataSetsFirst | pkg/runner/runner.go:578-588 | the set loop names the first set that lists the address |
| AclSearch.DataSetsFound | pkg/runner/runner.go:578-588 | a set id that comes out is that of the first listing set |
| AclSearch.RulesNone | pkg/runner/runner.go:576-592 | the rule loop finds nothing iff no rule's sets list the address |
| AclSearch.RulesFirst | pkg/runner/runner.go:576-592 | the first rule whose sets list the address decides |
| AclSearch.RulesFound | pkg/runner/runner.go:576-592 | a result that comes out is that of the first deciding rule |
| AclSearch.MatchTargetFound | pkg/runner/runner.go:569-597 | the result names the address; it is found iff some set of some rule lists it; an address not found has an empty set id |
| AclSearch.MatchTargetFirst | pkg/runner/runner.go:569-597 | a found address carries the id of its first listing in rule-then-set order |
| AclSearch.NoRulesNothingFound | pkg/runner/runner.go:575 | an ACL without rules finds nothing |
| AclSearch.CheckIfTargetExistsInACL | pkg/runner/runner.go:563-598 | the describe error is passed through; otherwise one result per address, in order, each the first-match result |
| Waf.Values | pkg/aws/waf.go:110-115 | the IP list is the descriptor values, in order |
| Waf.DataSetsOfOk | pkg/aws/waf.go:99-119 | the predicates give sets iff every IP-set fetch succeeds; then one set per predicate with ID = DataId and the fetched values |
| Waf.DataSetsOfFirstError | pkg/aws/waf.go:101-104 | the first failing IP-set fetch is the error returned |
| Waf.RulesOfOk | pkg/aws/waf.go:91-123 | the rules are filled iff every rule's fetches succeed; then one filled rule per rule, in order |
| Waf.RulesOfFirstError | pkg/aws/waf.go:93-96 | the first failing rule is the error returned |
| Waf.RuleOfMeaning | pkg/aws/waf.go:80-122 | a rule keeps Type, ActionType, Priority and RuleID, and holds one set per predicate (ID = DataId, IPList = descriptor values); a failed rule fetch is its error |
| Waf.DescribeMeaning | pkg/aws/waf.go:67-127 | a failed ACL fetch gives no ACL and no error; otherwise ID and Name are copied and the rules are assembled |
| Waf.DescribeFirstError | pkg/aws/waf.go:91-104 | the first rule whose fetches fail decides the error |
| Waf.CollectIPSets | pkg/aws/waf.go:100-119 | the predicate loop computes the data sets the specification gives |
| Waf.FetchRuleSets | pkg/aws/waf.go:93-122 | a rule's describe and its predicate loop compute the rule's sets; no predicates leaves the sets empty |
| Waf.DescribeWebACL | pkg/aws/waf.go:67-127 | the copy loop and the in-place per-rule loop compute the specification's ACL snapshot |
| Waf.ParseWebACLID | pkg/aws/waf.go:172-174 | on input holding a `/`, the id holds no `/` and has no surrounding white space; ParseWebACLIDMeaning says which text it is |
| Waf.ParseWebACLIDMeaning | pkg/aws/waf.go:172-174 | the id is the trimmed text between the first and second `/` |
| Waf.OptionRoundTrip | pkg/aws/waf.go:36-49 | parsing the option built from a summary gives back its id, when name and id hold no `/` and the id is not padded |
| Waf.ParseTestOption | pkg/aws/waf_test.go:11-13 | `test-web-acl / 1234-1234-1234` parses to `1234-1234-1234` |
| Waf.SelectACL | pkg/aws/waf.go:26-50 | a listing error is passed through; an empty answer is the cancel error; a chosen option is one of the options built, and yields its ACL's id when the name and id hold no `/` and the id is unpadded |
| CredentialRotation.FindSection | pkg/runner/runner.go:369-375 | the index of the first section with the profile's name, or none when there is none |
| CredentialRotation.SetCredentialsMeaning | pkg/runner/runner.go:369-375 | only the two key fields of the profile's section change; all other sections and fields are kept |
| CredentialRotation.Remove | pkg/aws/iam.go:38-50 | deleting a key leaves exactly the other keys |
| CredentialRotation.RemoveLength | pkg/aws/iam.go:38-50 | deleting never adds keys |
| CredentialRotation.RemoveShrinks | pkg/aws/iam.go:38-50 | deleting a held key shortens the list |
| CredentialRotation.IamDelete | pkg/aws/iam.go:38-50 | the delete succeeds iff the key is held and no fault occurs; the key is gone and the others stay |
| CredentialRotation.IamCreate | pkg/aws/iam.go:24-35 | the create succeeds iff no fault occurs and the user holds fewer than two keys; the new key is appended |
| CredentialRotation.CreateAndSaveSteps | pkg/runner/runner.go:362-381 | create-then-save logs a prefix of [Created, Saved], succeeds iff both happened, and writes the file only when saved |
| CredentialRotation.EarlyFailuresChangeNothing | pkg/runner/runner.go:320-350 | a missing configuration or a failing MFA check, file read, section lookup or key listing changes no state |
| CredentialRotation.RenewOrdering | pkg/runner/runner.go:353-389 | with two keys the mutations are a prefix of delete, create, save; otherwise of create, save, delete; the run succeeds iff all three happened |
| CredentialRotation.TwoKeysPath | pkg/runner/runner.go:354-389 | the two-key path in detail, including the file it leaves |
| CredentialRotation.OtherPath | pkg/runner/runner.go:362-389 | the create-first path in detail, including the file it leaves |
| CredentialRotation.RenewFile | pkg/runner/runner.go:369-381 | the file changes exactly when the save happened, and then holds the new credentials |
| CredentialRotation.RenewSucceeded | pkg/runner/runner.go:315-394 | after a successful run the old key was held and is gone, the new key is held, and the file names it |
| CredentialRotation.SavedFileNamesKey | pkg/runner/runner.go:369-375 | after the write the profile's current key is the new one |
| CredentialRotation.TwoKeysFailedSave | pkg/runner/runner.go:354-380 | with two keys and a failed save, the file still names a key the server no longer holds |
| CredentialRotation.WriteKey | pkg/runner/runner.go:369-375 | the section loop with `break` writes the credentials into the first matching section |
| CredentialRotation.Account.constructor | pkg/runner/runner.go:331-347 | the account starts with the listed keys, the file read, and an empty log |
| CredentialRotation.Account.DeleteAccessKey | pkg/aws/iam.go:38-50 | a failing delete changes nothing; otherwise the key is removed and the deletion is logged |
| CredentialRotation.Account.CreateNewCredentials | pkg/aws/iam.go:24-35 | a failing create changes nothing; otherwise the key is added, logged and returned |
| CredentialRotation.Account.SaveTo | pkg/runner/runner.go:378-380 | a failing save changes nothing; otherwise the file is replaced and the save is logged |
| CredentialRotation.Account.RenewCredentials | pkg/runner/runner.go:315-394 | the method's new state and error are those of the specification of the whole run |
| CredentialRotation.Account.RotateKey | pkg/runner/runner.go:353-389 | the isDeleted-flag steps leave the state and error of the ordering specification |
| AssumeSetup.ResolveArn | pkg/runner/runner.go:174-181 | without aliases the ARN is the target's own entry; an empty ARN means the target's own entry is empty too |
| AssumeSetup.ResolvedArnIsRole | pkg/runner/runner.go:174-181 | a resolved non-empty ARN is one of the configured role ARNs |
| AssumeSetup.AliasTakesPrecedence | pkg/runner/runner.go:175-177 | an alias whose role has a non-empty ARN decides |
| AssumeSetup.AliasFallsBack | pkg/runner/runner.go:179-181 | an empty aliased ARN falls back to the target's own entry |
| AssumeSetup.UnaliasedReadsEmptyRoleName | pkg/runner/runner.go:175-177 | once aliases exist, an unaliased target first reads the role named `""` |
| AssumeSetup.CheckTarget | pkg/runner/runner.go:460-466 | no error iff the ARN is non-empty; otherwise the not-registered error for the target |
| AssumeSetup.ResolveSetup | pkg/runner/runner.go:157-190 | no configuration and prompt errors are passed through; Ok iff the ARN resolves; the ARN is a configured role; the name comes from the configuration; a positive flag duration overrides |
| EcrCommand.GetLoginInformationFromToken | pkg/runner/ecr_command.go:27-34 | success iff the token has exactly one `:`; then user + ":" + password is the token and neither holds `:`; otherwise two empty strings and the token error |
| EcrCommand.TokenRoundTrip | pkg/runner/ecr_command.go:27-34 | splitting `user:password` gives the pair back |
| EcrCommand.MakeDockerLoginCommand | pkg/runner/ecr_command.go:37-39 | the command starts with `docker login -u `, ends with the endpoint, and is 21 characters longer than its three inputs |
| EcrCommand.LoginCommandWords | pkg/runner/ecr_command.go:37-39 | when neither the user name nor the password holds a space, the command splits into docker, login, -u, user, -p, password and the endpoint's words |
| EcrCommand.CreateEcrLoginCommand | pkg/runner/ecr_command.go:12-24 | decode errors and malformed tokens are errors; otherwise the command is built from the token's two parts |
| Tools.IsStringInArray | pkg/tools/tools.go:71-79 | true iff the string is an element |
| Tools.GetKeys | pkg/tools/tools.go:105-112 | every key of the map exactly once |
| Tools.FormatKeyForDisplay | pkg/tools/tools.go:153-155 | sixteen `*` followed by the key's last four characters |
| Tools.FormatKeyHidesPrefix | pkg/tools/tools.go:153-155 | two keys display the same iff their last four characters agree |
| Tools.AskContinue | pkg/tools/tools.go:97-101 | the answer either continues or stops the process |
| Tools.AskContinueAccepts | pkg/tools/tools.go:97-101 | the answer continues iff it is `y` or `yes` in any case |
| Tools.IsExpired | pkg/tools/tools.go:115-117 | expired iff the deadline, creation time plus lifetime, lies strictly before now |
| Tools.ExpiredStaysExpired | pkg/tools/tools.go:115-117 | once expired, a key stays expired as the clock moves on |
| Args.IsValid | pkg/args/args.go:26-28 | valid iff there are a profile, a command and at least one argument |
| Args.Argument.constructor | pkg/args/args.go:7-15 | an argument starts out empty |
| Args.Argument.ParseArgument | pkg/args/args.go:31-35 | the fields become the profile, the command and the rest, which rebuild the input |
| Args.Parse | pkg/args/args.go:14-23 | the usage error and no argument iff invalid; otherwise a fresh argument that rebuilds the input and has at least one trailing argument |
| Config.WithDefaultDuration | pkg/config/config.go:68-72 | a zero duration becomes 7200; nothing else changes |
| Config.SetDefault | pkg/config/config.go:67-75 | the in-place loop leaves the defaulted configurations |
| Config.SetDefaultsMeaning | pkg/config/config.go:67-75 | afterwards no duration is zero; non-zero configurations are kept; zero ones get 7200 and keep their other fields |
| Config.SetDefaultsIdempotent | pkg/config/config.go:67-75 | defaulting twice is defaulting once |
| Config.SelectConfigWithProfile | pkg/config/config.go:30-44 | the first configuration with the profile, or the profile-missing error when none has it |
| Config.GetInitConfig | pkg/config/config.go:78-94 | one default-profile configuration with the name, 3600 seconds and the preprod/prod template |
| Config.InitConfigIsDefaulted | pkg/config/config.go:67-94 | the init template already has a duration |
| Iam.CheckKeys | pkg/aws/iam.go:59-69 | no matching key gives the configuration error; the first matching key decides expiry |
| Iam.CheckAccessKeyExpired | pkg/aws/iam.go:53-70 | a listing error is passed through; otherwise the key check |
| Iam.OnlyFirstMatchCounts | pkg/aws/iam.go:59-67 | keys after the first match do not matter |
| Iam.ExpiryBoundary | pkg/aws/iam.go:61-66 | expired iff more than 180 days have passed since creation; otherwise no error |
| Asg.GetExactASGNames | pkg/aws/asg.go:19-37 | a describe error is passed through; otherwise the filtered names |
| Asg.MatchingNamesMeaning | pkg/aws/asg.go:30-34 | exactly the names containing the wanted text, as a subsequence of the groups in order |
| Asg.EmptyNameMatchesAll | pkg/aws/asg.go:31 | the empty name keeps every group |
| Asg.UpdateLoadtestASG | pkg/aws/asg.go:55-69 | min, desired and max are all the capacity for the named group |
| Asg.StartLoadtestASG | pkg/aws/asg.go:71-73 | a capacity of 1 |
| Asg.StopLoadtestASG | pkg/aws/asg.go:75-77 | a capacity of 0 |
| GoStrings.Count | pkg/runner/runner.go:510 | the count never exceeds the length; CountZero and CountAppend give its meaning |
| GoStrings.CountZero | pkg/runner/runner.go:510 | the count is zero iff the character is absent |
| GoStrings.CountAppend | pkg/runner/runner.go:510 | counts add over concatenation |
| GoStrings.Split | pkg/runner/runner.go:514 | one more part than separators |
| GoStrings.SplitPartsFree | pkg/runner/runner.go:514 | no part holds the separator |
| GoStrings.JoinSplit | pkg/runner/runner.go:514 | joining the parts gives the input back |
| GoStrings.TrimSpace | pkg/runner/runner.go:520 | the result neither starts nor ends with white space; TrimSpaceTrimmed says what was cut |
| GoStrings.TrimSpaceKeepsOut | pkg/aws/waf.go:173 | trimming adds no character |
| GoStrings.TrimSpaceTrimmed | pkg/runner/runner.go:520 | the result is the input with only white space removed at both ends |
| GoStrings.TrimSpaceUnpadded | pkg/runner/runner.go:520 | an unpadded string is left alone |
| GoStrings.TrimSpaceIdempotent | pkg/runner/runner.go:520 | trimming twice is trimming once |
| GoStrings.Contains | pkg/aws/asg.go:31 | a contained string is never longer than the one containing it; ContainsOccurs gives its meaning |
| GoStrings.ContainsOccurs | pkg/aws/asg.go:31 | containment iff the text occurs at some position |
| GoStrings.ContainsEmpty | pkg/aws/asg.go:31 | every string contains the empty string |
| GoStrings.ToLower | pkg/tools/tools.go:97 | each character lowercased, same length |
| Strconv.Atoi | pkg/runner/runner.go:520-532 | a parsed value lies in the 64-bit range; every error is a syntax or a range error on the whole input; AtoiMeaning gives the accepted strings |
| Strconv.AtoiMeaning | pkg/runner/runner.go:520-532 | Ok iff an optional sign and decimal digits denote a value in the 64-bit range, with that value; errors are syntax or range errors, and only syntax errors below 19 characters |
| Strconv.AtoiShort | pkg/runner/runner.go:520-532 | below 19 characters, only syntax decides |
| Strconv.AtoiLong | pkg/runner/runner.go:520-532 | from 19 characters, the 64-bit range decides too |
| Strconv.AtoiDecimal | pkg/runner/runner.go:520-532 | the decimal text of any non-negative 64-bit value parses back to it |
| Strconv.DecimalValue | pkg/runner/runner.go:520-532 | the decimal text denotes its number |
| Strconv.ScanUintDigits | pkg/runner/runner.go:520-532 | the digit scan succeeds on digits with the value they denote, unless it overflows 64 bits |

## Left out

- AWS SDK calls are not modelled as services. Key listings, ACL
  descriptions, rule and IP-set fetches, and create and delete calls are
  parameters, lookups or fault values. AWS's own contracts appear only as
  stated assumptions: the two-key limit and the no-such-key error in
  `CredentialRotation.IamCreate` and `IamDelete`.
- The dereferences of SDK fields (`*acl.Name` and similar) are
  assumed non-nil. The SDK values are plain records.
- CheckIfTargetExistsInACL: when the describe step returns no ACL and no
  error, the source dereferences nil inside the per-address loop. The model
  requires that case to come with no addresses. It does not model the
  panic.
- ParseWebACLID: requires a `/` in its input, because the source's `[1]`
  index panics otherwise.
- FormatKeyForDisplay: requires at least four characters, because the
  source's slice panics otherwise. It counts characters, whereas Go slices
  bytes, so the two differ on non-ASCII keys.
- Interactive prompts are parameters:
  - the `AskAssumeTarget` answer is `asked` in `AssumeSetup.ResolveSetup`;
  - the ACL choice is `answer` in `Waf.SelectACL`;
  - the yes/no answer is the input of `Tools.AskContinue`.

  `AskBaseAccountName`, `ChooseEnv` and `SelectTargetACL` are not modelled.
- Setup after the ARN is resolved is not modelled. That covers the
  `GetAssumeCreds` call, the clipboard (`pbcopy`) and the printed
  credentials.
- Environment-variable clearing, file reads and writes, YAML and INI
  parsing are not modelled.
  - A credentials file is a sequence of sections, each with a field map, so
    the order of keys within a section is not kept.
  - The INI library's DEFAULT section is not modelled.
  - A failed read or save is a fault parameter.
- SelectConfigWithProfile: takes the already parsed configurations. The
  `yaml.Unmarshal` step is its `loaded` error.
- CreateEcrLoginCommand: Base64 decoding (RFC 4648 section 5, with padding)
  is an abstract partial function passed in.
- The clock is a parameter. `now` and the key's creation date are integer
  nanoseconds, and `IsExpired` is a comparison over them. `time.Since` and
  monotonic time are not modelled.
- ToLower: lowercases ASCII letters only. Unicode case mapping is not
  modelled. No non-ASCII letter lowercases to `y`, `e` or `s`, so the
  `AskContinue` decision is still exact.
- Strconv uses Go's `int` as a 64-bit integer. Platforms with a 32-bit
  `int` are not modelled.
- CredentialRotation.Faults: the run has one delete fault, which applies to
  whichever delete call happens. The two delete sites cannot fail
  differently in one run, but at most one of them runs.
- The MFA token check and the key listing are summarised as fault values.
  Logging (`logrus`) and printed output are not modelled.
- `GetLoadtestASGStatus`, `PrintWebACL`, `PrintHasIPResult` and the other
  table and colour output are not modelled. CLI wiring (cobra/viper), the
  templates, the colour helpers and the executor are not modelled either.
- DescribeWebACL: the predicate `Type` and `Negated` fields are carried in
  the SDK records but not used, exactly as in the source.
