# Release and evaluation scripts: a verified model

The repository decides whether a product may be released. A chain of scripts collects evidence, re-checks it and
writes decisions that later scripts re-check again. This project models the algorithms inside that chain and proves
what a maintainer relies on:

* **Client types.** The generator that turns an OpenAPI document into TypeScript types. It prints unions with `|` and
  intersections with `&` and never writes a parenthesis. Proved: the text is a type at all if and only if nothing that
  is joined in it is empty; every value a supported schema admits inhabits the type its text *reads as*, through
  recursive references. The text parses back to the same tree if and only if, besides, no part of an intersection prints
  a top-level `|`; when the components do not either, it also means what was intended. When a part does print one, the
  text of an `allOf` whose branches' texts say for a value what was intended says so itself, for that value, if and
  only if every alternative it falls into is contained in the branches that alternative was cut loose from. For object
  schemas: exactly when the text is too narrow for the schema. The converse of soundness: of a schema that says nothing
  a type cannot say, the text admits exactly the valid values; for integers, `oneOf` and forbidden or undeclared
  members, exactly what it admits besides. For component names: exactly which read back.
* **Approvals.** The backtracking search that assigns approvers to roles, over one dictionary filled and emptied in
  place, for any number of roles. Proved: it finds an assignment exactly when one exists, a failed call leaves the
  dictionary as it was, the assignment found is the one best assignment in the order tried, a role is shared only when
  it must be, and a report that is built passes the separately written validator (with the exact condition),
  for both versions of the scripts. What it means, in the fields of the documents, that a policy, a request, a pull
  request and a report pass, and whose approvals are selected. Live verification of a frozen report: when it holds, what
  does not disturb it, what revokes it.
* **Statistics and gates.** Nearest-rank percentiles, Wilson intervals, per-case accumulation, the regression gate and
  the release gate, over exact reals. From cases to verdicts in both directions: a candidate that is no worse in any case
  passes, one that is worse in every case is rejected. What a verdict and a release mean, in scores.
* **Final acceptance.** The assembler that writes the release package and the gate that re-validates it, over a file
  store the first one changes before the second reads it. Proved: the exact condition under which whatever the
  assembler emits is accepted, also with the real authorization validator over the same store; and what it takes, in
  the fields of the files, to be assembled and to be accepted.
* **Latency, load, rollout, services.** Conservation and order independence of grouped times and what the summaries
  are, a scheduler under every order of completion, a closed form for the state after any run of rollout events, and the
  agreement of service counts by pigeonhole.

Code that works step by step is written as methods and classes with loops, and proved against functions; the
theorems are about those functions. Requirements on schemas follow JSON Schema 2020-12: Core sections 8.2.3.1 (`$ref`),
10.2.1.1 to 10.2.1.3 (`allOf`, `anyOf`, `oneOf`), 10.3.1.2 (`items`) and 10.3.2 (object keywords); Validation sections
6.1.1 to 6.1.3 and 6.5.3.

`dafny verify dfyconfig.toml` checks the whole project.

## Where the code and its promises part

Each of these is a theorem of the model, with the exact condition, and with concrete inputs where the condition alone
does not show them.

* A combinator, enumeration or type list that is empty prints nothing, and the text is then no type
  (`ReadableText.TypeExactly`).
* A schema with `properties` and no `type` admits values that are not objects; its text does not
  (`NarrowText.UntypedText`). Declared properties beside a schema for additional ones are forced into the index
  signature as it reads (`NarrowText.MixedText` for a value, `NarrowText.MixedTextExactly` for a schema, with an input
  in `NarrowText.MixedTextFails`). `NarrowText.ObjectTextExactly` covers all object schemas. The same questions about
  the intended tree have other answers: `NarrowText.OnlyTheTreeIsNarrow` is a schema whose tree is too narrow and whose
  text is not.
* A type cannot say everything: `number` for an integer, a union for a `oneOf`, and an object type beside forbidden
  members or required ones that are not declared admit more than the schema (`ExactTypes.IntegerExactly`,
  `ExactTypes.OneOfExactly`, `ExactTypes.ObjectExactly` say exactly what).
* An `allOf` whose part prints a union reads back as another tree (`PrintedStructure.RoundTripExactly`). What that tree
  admits is what was intended exactly when nothing cut loose strays (`PrintedMeaning.AllOfExactly`); one such text
  admits too much (`PrintedMeaning.AmbiguousTextAdmitsMore`), another is harmless (`PrintedMeaning.AmbiguousButExact`).
* A component name reads back from the generated file exactly when it is an identifier and none of the words the
  generator writes itself (`NameText.NameReadsBack`). A component called `string` is read as the keyword
  (`NameText.WordReadsBack`), one called `Item-Input` not at all (`NameText.HyphenIsNoIdentifier`).
* The builders do not check where the request file lies; the validators do (`AuthorizationReport.BuiltReportValidates`,
  `AuthorizationV1.BuiltReportV1Validates`, with inputs in `AuthorizationExample.BuiltButNotTaken`). The command line of
  version 1 checks the place before it builds (scripts/capture_release_authorization.py:721), so there only a direct
  call of the builder meets the failing case; that of version 2 does not check.
* The search for approvers does not look at what a record needs: it fails when the review of a person it chose has no
  address, even when somebody else could take the role (`AuthorizationReport.SelectionExactly`, with an input in
  `AuthorizationExample.IncompleteReviewStops`).
* Version 1 selects approvals ignoring the case of the commit, and verifies live ones exactly
  (`LiveAuthorization.FreshReportLive`, with inputs in `AuthorizationExample.BuiltButNotLive`).
* A `max_ratio` guardrail above one rejects an unchanged run whose score is negative (`RegressionGate.SelfComparison`,
  with inputs in `RegressionGate.RatioRejectsUnchanged`).
* The assembler compares commits in lower case and never reads the matrix's list of required gates; the gate compares
  commits as written and insists on the list. The two files the assembler writes may replace a file that was already
  checked. `ReleasePipeline.ReleaseAgreement` has these three conditions, with inputs in
  `AcceptanceExample.EmittedButRefused`, `AcceptanceExample.OverwrittenDecision` and, on the other side,
  `AcceptanceExample.EmittedAndAccepted`. With an arbitrary validator there is a fourth, that the authorization names
  every role and handoff (`AcceptanceAgreement.Agreement`); the canonical validator guarantees it
  (`AuthorizationV1.AuthorizedIsComplete`), and `AcceptanceExample.NobodyApproved` shows that some guarantee is needed.

## Model

| member | source | states |
|---|---|---|
| ClientTypes.TsType | scripts/generate_api_v1_client.py:19-61 | the recursive translation returns the specified token text of the schema, branch by branch in the same order; what that text admits is bounded from both sides by PrintedMeaning.PrintedTypeSound and ExactTypes.ExactText |
| ClientTypes.TsTypes | scripts/generate_api_v1_client.py:28-33 | the texts of a combinator's branches, in order |
| ClientTypes.TsFields | scripts/generate_api_v1_client.py:49-60 | one field per property in order, with a question mark exactly when it is not required |
| ClientTypes.ComponentTypes | scripts/generate_api_v1_client.py:64-69 | every component is exported once, in sorted order, under its own name |
| ClientTypes.EmitNameIsBare | scripts/generate_api_v1_client.py:36-37 | an entry of a type list prints as the schema holding nothing but that type |
| ClientTypes.RefNameResolves | scripts/generate_api_v1_client.py:15-16 | the printed name of a reference is the component it resolves to |
| ClientTypes.ResolveMeans | scripts/generate_api_v1_client.py:15-16 | what a reference names: exactly the components, each under `#/components/schemas/` |
| ClientTypes.CompilerSound | scripts/generate_api_v1_client.py:15-69 | a value valid for a schema inhabits its intended tree, for every depth to which recursive references are followed |
| ClientTypes.BranchSound | scripts/generate_api_v1_client.py:28-31 | a value valid for one branch inhabits the union of the branches' types |
| ClientTypes.BranchesSound | scripts/generate_api_v1_client.py:32-33 | a value valid for all branches inhabits the intersection of their types |
| ClientTypes.TypeKeywordSound | scripts/generate_api_v1_client.py:35-61 | soundness of the type keyword: lists, scalars, arrays, objects |
| ClientTypes.ObjectSound | scripts/generate_api_v1_client.py:48-60 | soundness of required and optional fields and of index signatures |
| ClientTypes.UntypedProperties | scripts/generate_api_v1_client.py:48-60 | for properties, the intended tree is wide enough if and only if the schema also names the type |
| ClientTypes.MixedAdditional | scripts/generate_api_v1_client.py:50-60 | a valid object inhabits the intended tree if and only if its declared members also fit the tree of the index signature |
| ClientTypes.MixedAdditionalSchema | scripts/generate_api_v1_client.py:50-60 | for a schema that admits anything: the intended tree is wide enough if and only if every value a declared property admits also fits the tree of the index signature |
| ClientTypes.MixedAdditionalFails | scripts/generate_api_v1_client.py:50-60 | a schema and a value it admits that its intended tree does not |
| ExactTypes.ExactTree | scripts/generate_api_v1_client.py:15-69 | the converse of soundness: of a schema that says nothing a type cannot say, every value that inhabits the intended tree is valid, through recursive references |
| ExactTypes.ExactText | scripts/generate_api_v1_client.py:15-69 | the same for what the emitted text reads as, in a file where nothing is ambiguous; with soundness, the text admits exactly the valid values |
| ExactTypes.ConstantText | scripts/generate_api_v1_client.py:24-25 | the text of a constant admits exactly that constant |
| ExactTypes.EnumerationText | scripts/generate_api_v1_client.py:26-27 | the text of an enumeration admits exactly its members |
| ExactTypes.ScalarText | scripts/generate_api_v1_client.py:38-46 | the text of each scalar type admits exactly the values of the type, and for an integer exactly the numbers |
| ExactTypes.IntegerExactly | scripts/generate_api_v1_client.py:40-41 | what `number` admits beyond an integer schema: exactly the numbers that are not whole |
| ExactTypes.OneOfExactly | scripts/generate_api_v1_client.py:28-31 | what the union of a `oneOf` admits beyond it: exactly the values that fit more than one branch |
| ExactTypes.ObjectExactly | scripts/generate_api_v1_client.py:48-60 | what an object type admits beyond its schema: exactly the objects with a forbidden member, or without a required one that is not declared |
| NameText.NameReadsBack | scripts/generate_api_v1_client.py:15-16 | a component name, written before anything that is not part of a name, reads back as that name if and only if it is an identifier and not one of the generator's own words |
| NameText.ReferenceReadsBack | scripts/generate_api_v1_client.py:15-16 | the characters printed for a reference read back as the component it resolves to, under the same condition |
| NameText.WordReadsBack | scripts/generate_api_v1_client.py:15-16 | a name that is one of the generator's words reads back as that word |
| NameText.HyphenIsNoIdentifier | scripts/generate_api_v1_client.py:15-16 | a name OpenAPI allows that does not read back |
| PrintedTypes.EmitPrintsIntended | scripts/generate_api_v1_client.py:19-61 | the emitted text is the printing of the intended type tree |
| PrintedTypes.PrintFuse | scripts/generate_api_v1_client.py:32-33 | writing an ampersand between two unions fuses the last group of one with the first of the other |
| PrintedTypes.PrintReads | scripts/generate_api_v1_client.py:26-33 | the text of a tree is also the text of the grammatical type it reads as |
| TypeGrammar.ParsesAlt | scripts/generate_api_v1_client.py:19-61 | the parser, with ampersand binding tighter, inverts the printer on every grammatical type |
| ReadableText.ReadsExactly | scripts/generate_api_v1_client.py:19-61 | a text reads as a type if and only if it is the printing of that well-formed type: the parser is the exact inverse of the printer |
| ReadableText.PrintWhole | scripts/generate_api_v1_client.py:19-61 | the text of a tree has a gap if and only if the tree has an empty union or intersection |
| ReadableText.TypeExactly | scripts/generate_api_v1_client.py:19-61 | the emitted text of a schema is a type if and only if no enumeration, combinator or type list joined in it is empty; it then reads as the predicted type |
| PrintedMeaning.TextMeaning | scripts/generate_api_v1_client.py:28-33 | what a text reads as admits at least the values of the tree, and exactly those when nothing cut loose from an intersection, at any depth, strays outside it |
| PrintedMeaning.PrintedTypeSound | scripts/generate_api_v1_client.py:19-69 | the emitted text parses, and every value the schema admits inhabits what it parses to |
| FusedText.FusedExactly | scripts/generate_api_v1_client.py:32-33 | the text of `a & b` means the intersection for a value if and only if what is cut loose from each side is contained in the other, for that value |
| FusedText.FusedAllExactly | scripts/generate_api_v1_client.py:32-33 | the same for any number of branches: the text means their intersection if and only if every alternative is contained in the branches it was cut loose from |
| PrintedMeaning.AllOfExactly | scripts/generate_api_v1_client.py:26-33 | an `allOf` whose branches' texts say for a value what was intended: the emitted text says so too, for that value, if and only if every alternative of it is contained in the branches it was cut loose from |
| PrintedMeaning.PrintedTypeTight | scripts/generate_api_v1_client.py:19-69 | when nothing cut loose strays, in the schema or a component, the emitted text admits exactly the intended values |
| PrintedMeaning.PrintedTypeFaithful | scripts/generate_api_v1_client.py:19-69 | without a union inside an intersection, in the schema or a component, the re-read text admits exactly the intended values |
| PrintedMeaning.AmbiguousTextAdmitsMore | scripts/generate_api_v1_client.py:32-33 | a schema whose re-read text admits every string although the intended type admits none |
| PrintedMeaning.AmbiguousButExact | scripts/generate_api_v1_client.py:32-33 | a schema whose text reads back as another tree and still admits exactly the intended values |
| NarrowText.ObjectText | scripts/generate_api_v1_client.py:48-60 | what the re-read text of an object schema admits: objects whose declared members fit the texts of their properties and all of whose members fit the text of the index signature |
| NarrowText.MixedText | scripts/generate_api_v1_client.py:50-60 | a valid object inhabits what the text reads as if and only if its declared members also fit the index signature as it reads |
| NarrowText.MixedTextExactly | scripts/generate_api_v1_client.py:50-60 | the text is sound for the schema if and only if the schema admits nothing or every value a declared property admits fits the index signature as it reads |
| NarrowText.UntypedText | scripts/generate_api_v1_client.py:48-60 | the text of properties without a type is never sound |
| NarrowText.ObjectTextExactly | scripts/generate_api_v1_client.py:48-60 | the text of an object schema whose parts print sound texts is sound if and only if the schema admits nothing, or names the object type and keeps its declared properties within the index signature |
| NarrowText.SupportedParts | scripts/generate_api_v1_client.py:48-60 | supported parts, in a file of supported components, do print sound texts |
| NarrowText.MixedTextFails | scripts/generate_api_v1_client.py:50-60 | a schema and a value it admits that its re-read text does not |
| NarrowText.OnlyTheTreeIsNarrow | scripts/generate_api_v1_client.py:50-60 | a schema whose intended tree is too narrow and whose re-read text is not |
| PrintedStructure.UnambiguousReturns | scripts/generate_api_v1_client.py:28-33 | an unambiguous tree parses back to itself up to flattening |
| PrintedStructure.ParsableUnambiguous | scripts/generate_api_v1_client.py:28-33 | a tree a parser can return at all is unambiguous |
| PrintedStructure.RoundTripExactly | scripts/generate_api_v1_client.py:19-61 | the emitted text of any schema parses back to the same tree, up to flattening, if and only if nothing joined in it is empty and no part of an intersection prints a top-level union |
| ApprovalSearch.Search.Run | scripts/capture_release_authorization_v2.py:293-304 | a failed search leaves the dictionary as it found it, a successful one leaves the first completion in the order tried |
| ApprovalSearch.FirstIsLegal | scripts/capture_release_authorization_v2.py:290-304 | what is found is total, respects candidates, separation and the distinct minimum, and keeps earlier choices |
| ApprovalSearch.FirstIsComplete | scripts/capture_release_authorization_v2.py:293-304 | if the choices made can be completed at all, a completion is found |
| ApprovalSearch.SearchDecides | scripts/capture_release_authorization_v2.py:286-306 | the search succeeds if and only if a legal assignment exists, for any number of roles |
| ApprovalSearch.FoundIsPreferred | scripts/capture_release_authorization_v2.py:297-303 | which assignment is found: no actor tried earlier for a role, after the same earlier choices, fits any legal assignment |
| ApprovalSearch.BestIsFound | scripts/capture_release_authorization_v2.py:286-306 | the search finds an assignment if and only if it is the best one: legal, and preferred at every role |
| Reviews.LatestDecisiveReviews | scripts/capture_release_authorization_v2.py:214-222 | the loop over the sorted reviews returns the last-wins dictionary of decisive reviews |
| Reviews.LatestIsGreatest | scripts/capture_release_authorization_v2.py:208-222 | exactly the logins with a decisive review appear, each with its greatest one by time and identifier |
| Reviews.LatestIs | scripts/capture_release_authorization_v2.py:208-222 | with unique identifiers, a login's greatest decisive review is the one recorded |
| Reviews.LatestOrderIndependent | scripts/capture_release_authorization_v2.py:208-222 | with unique identifiers the order in which reviews arrive does not matter |
| Authorization.ProblemOfValid | scripts/capture_release_authorization_v2.py:281-291 | the search problem built from a normal policy is well formed and poses exactly the policy's question |
| Authorization.ChooseDecides | scripts/capture_release_authorization_v2.py:281-306 | actors are chosen if and only if the approved people can fill the roles under the policy |
| Authorization.UnusedFirst | scripts/capture_release_authorization_v2.py:297 | people who hold no role yet are tried before those who do |
| Authorization.EarlierNameFirst | scripts/capture_release_authorization_v2.py:297 | among people who hold no role yet, and among people who hold one, names decide the order |
| Authorization.ChosenIsBest | scripts/capture_release_authorization_v2.py:281-306 | the chosen filling is the best one under the policy, and only it |
| Authorization.SharesOnlyWhenForced | scripts/capture_release_authorization_v2.py:293-304 | a role goes to somebody already used only when no filling with the same earlier choices avoids it |
| ChoiceMeaning.LegalMeans | scripts/capture_release_authorization_v2.py:290-304 | a legal assignment, in its fields: every role and nothing else, a candidate of its own for each, two people for separated roles, and enough people |
| ChoiceMeaning.ChoiceExists | scripts/capture_release_authorization_v2.py:271-306 | people are chosen if and only if one listed person for each role whose last decisive review approves the commit, and who is neither the author nor a bot, can be found under separation and head count; and the choice is that |
| ChoiceMeaning.ChosenComesFirst | scripts/capture_release_authorization_v2.py:293-304 | which people: against any other filling, at the first role where they differ, the chosen person holds no earlier role while the other does, or they are alike in that and the chosen name comes first |
| TextLaws.StrLeqMeans | scripts/capture_release_authorization_v2.py:297 | the order of names: a prefix comes first, and otherwise the first character that differs decides |
| AuthorizationMeaning.PolicyPasses | scripts/capture_release_authorization_v2.py:117-170 | a policy passes if and only if its named fields hold, for either version: kind, repository, pull request, branches, head count, demands, roles with distinct human logins, and the mandatory separations |
| AuthorizationMeaning.PolicyKept | scripts/capture_release_authorization_v2.py:117-170 | what is kept of a policy that passes: roles, logins, separated pairs and head count as written |
| AuthorizationMeaning.LoginMeans | scripts/capture_release_authorization_v2.py:44 | what a login is: letters, digits and inner hyphens, at most 39 of them |
| AuthorizationMeaning.RequestPasses | scripts/capture_release_authorization_v2.py:173-205 | a request passes if and only if its named fields hold and the policy it freezes is there, with its digest, and passes |
| AuthorizationMeaning.RequestKept | scripts/capture_release_authorization_v2.py:173-205 | what is kept of a request that passes, the commit in lower case |
| AuthorizationMeaning.HandoffsAre | scripts/capture_release_authorization_v2.py:26-35 | the eight handoffs a request must fill in |
| AuthorizationMeaning.AddressesAre | scripts/capture_release_authorization_v2.py:240 | what the pull request's address is, and where evidence lies |
| AuthorizationMeaning.PullRequestPasses | scripts/capture_release_authorization_v2.py:225-249 | a pull request passes if and only if it is open, has the pinned number, branches and repository, an author, an address, and its head is the commit; and what is kept of it |
| AuthorizationMeaning.BuiltForPullRequest | scripts/capture_release_authorization_v2.py:310-336 | a version 2 report is built only for a pull request that stands, open and unmoved, at the commit of its evidence |
| AuthorizationMeaning.BuiltForPullRequestV1 | scripts/capture_release_authorization.py:337-369 | the same for version 1, ignoring the case of the commit |
| AuthorizationMeaning.BuildsExactly | scripts/capture_release_authorization_v2.py:310-336 | a version 2 report is built if and only if the commit is one, the pull request stands at it, and approvals can be selected; it hands on exactly those |
| AuthorizationMeaning.BuildsExactlyV1 | scripts/capture_release_authorization.py:337-369 | the same for version 1, ignoring the case of the commit |
| AuthorizationMeaning.ApproversConsent | scripts/capture_release_authorization_v2.py:271-280 | the approvals that count are exactly those of people whose last decisive review approves the commit, other than the author and bots |
| AuthorizationMeaning.LaterDecisionOverrides | scripts/capture_release_authorization_v2.py:208-222 | a later dismissal or request for changes takes an approval away, whatever else was reviewed |
| AuthorizationMeaning.SelectedIsRecorded | scripts/capture_release_authorization_v2.py:252-307 | each selected approval records the review it comes from: its identifier, address, time and commit, and its author as the actor |
| AuthorizationMeaning.ReportPasses | scripts/capture_release_authorization_v2.py:339-397 | a version 2 report passes if and only if its named fields hold, the frozen request and policy are there and pass, and every role is approved as the policy demands |
| AuthorizationMeaning.ApproversConsentV1 | scripts/capture_release_authorization.py:238-300 | version 1: the same approvals, ignoring the case of the commit |
| AuthorizationMeaning.SelectedIsRecordedV1 | scripts/capture_release_authorization.py:256-334 | version 1: each selected approval records the review it comes from |
| AuthorizationMeaning.ReportPassesV1 | scripts/capture_release_authorization.py:372-451 | a version 1 report passes if and only if its named fields hold, the frozen request and policy are there and pass, and every role is approved as the policy demands |
| AuthorizationMeaning.HandsOn | scripts/capture_release_authorization.py:436-451 | what a version 1 report that passes hands on: every role approved, and the handoff of the request |
| AuthorizationReport.ApprovedReviews | scripts/capture_release_authorization_v2.py:273-280 | the loop keeps exactly the approving latest reviews of the evidence commit by people other than the author |
| AuthorizationReport.ChooseActors | scripts/capture_release_authorization_v2.py:281-306 | candidates, early stop and search together compute the specified choice |
| AuthorizationReport.Records | scripts/capture_release_authorization_v2.py:252-307 | one record per role, or none when a chosen review lacks what a record needs |
| AuthorizationReport.SelectApprovals | scripts/capture_release_authorization_v2.py:271-307 | the whole selection, step by step, computes the specified approvals |
| AuthorizationReport.SelectionDecides | scripts/capture_release_authorization_v2.py:271-307 | with complete reviews, approvals are selected if and only if the people who approved can legally fill the roles |
| AuthorizationReport.SelectionExactly | scripts/capture_release_authorization_v2.py:252-307 | approvals are selected if and only if the best filling by the people who approved has reviews that can be recorded |
| AuthorizationReport.ValidatedPolicyNormal | scripts/capture_release_authorization_v2.py:117-170 | a policy that passes has distinct roles, each with candidates, and normalised pairs of different roles |
| AuthorizationReport.CheckedRequest | scripts/capture_release_authorization_v2.py:173-205 | what a request that passes guarantees |
| AuthorizationReport.ValidateSelected | scripts/capture_release_authorization_v2.py:364-379 | the validator's pass over roles, head count and pairs |
| AuthorizationReport.ValidateRoles | scripts/capture_release_authorization_v2.py:367-376 | the loop over the roles checks each approval and collects the actors |
| AuthorizationReport.ValidatePairs | scripts/capture_release_authorization_v2.py:378-379 | every separated pair of roles has two actors |
| AuthorizationReport.BuiltReportValidates | scripts/capture_release_authorization_v2.py:310-397 | a report built from checked inputs passes the independent validator, over any store that still holds the two frozen files, if and only if the request file lies under the evidence root |
| AuthorizationReport.ValidReportSeparates | scripts/capture_release_authorization_v2.py:339-397 | in every report that passes, three different people approved, none is the author, and the mandatory pairs are separated |
| AuthorizationV1.BuiltSelection | scripts/capture_release_authorization.py:256-334 | what version 1 selects, ignoring the case of the commit, satisfies the validator's conditions on approvals for the commit in lower case |
| AuthorizationV1.BuiltReportV1Validates | scripts/capture_release_authorization.py:337-451 | a version 1 report built from a checked request passes its validator, over any store that still holds the two frozen files, if and only if the request file lies under the evidence root |
| AuthorizationV1.AuthorizedIsComplete | scripts/capture_release_authorization.py:372-451 | a version 1 report that passes names every role as approved and every handoff |
| AuthorizationExample.BuiltButNotTaken | scripts/capture_release_authorization_v2.py:310-397 | a version 2 report that is built and refused, its request outside the evidence root, and the same documents taken with the request inside it |
| AuthorizationExample.IncompleteReviewStops | scripts/capture_release_authorization_v2.py:252-307 | nothing is selected when the preferred person's review has no address, although another person could fill the role |
| AuthorizationExample.BuiltButNotLive | scripts/capture_release_authorization.py:337-480 | a version 1 report that is built and does not verify live, its commit in capitals, and one in lower case that does |
| LiveAuthorization.VerifyLive | scripts/capture_release_authorization.py:466-480 | the loop over the roles computes the specified verdict on the live pull request and reviews; AuthorizationMeaning.LivePullRequest and LiveAuthorization.RoleLiveMeans say in fields what it demands |
| LiveAuthorization.RoleLiveMeans | scripts/capture_release_authorization.py:469-480 | with unique identifiers, a role verifies if and only if its frozen review still approves the exact commit and is its actor's latest word |
| LiveAuthorization.FreshApprovalsLive | scripts/capture_release_authorization.py:460-480 | the roles and the pull request: on an unchanged pull request fresh approvals verify if and only if every selected review names the commit in lower case |
| LiveAuthorization.VerifyLiveReport | scripts/capture_release_authorization.py:454-480 | the report is validated against its frozen files, then the pull request and the roles are verified live; AuthorizationMeaning.ReportPassesV1 and LivePullRequest say in fields what that demands |
| AuthorizationMeaning.LivePullRequest | scripts/capture_release_authorization.py:211-236 | a report verifies live only on a pull request that is open, has the pinned number, branches and repository, the frozen author and address, and still stands at the report's commit |
| AuthorizationMeaning.MovedOrClosedBlocks | scripts/capture_release_authorization.py:454-467 | a pull request that moved to another commit, was closed, or is another one makes the live verification fail |
| LiveAuthorization.FreshReportLive | scripts/capture_release_authorization.py:454-480 | a report verified on the unchanged pull request it was built from passes if and only if the request file lies under the evidence root and every selected review names the commit in lower case |
| LiveAuthorization.ChangedFileBlocks | scripts/capture_release_authorization.py:98-104 | a frozen policy or request that no longer has its digest blocks the live verification |
| LiveAuthorization.LiveSurvives | scripts/capture_release_authorization.py:460-480 | the roles and the pull request: comments and other people's reviews never disturb a verification that holds |
| LiveAuthorization.LiveRevoked | scripts/capture_release_authorization.py:480 | the roles and the pull request: another decisive review of a selected actor that is not earlier makes the verification fail |
| LiveAuthorization.ReportSurvives | scripts/capture_release_authorization.py:454-480 | a report that verifies keeps verifying while files are only added and nobody selected decides again |
| LiveAuthorization.ReportRevoked | scripts/capture_release_authorization.py:454-480 | a report stops verifying when a selected actor has another decisive review that is not earlier |
| OrderStatistics.PercentileIs | evals/statistics.py:12-19 | the percentile is a sample with enough samples at or below it and too few strictly below |
| OrderStatistics.PercentileDefined | evals/statistics.py:12-16 | a percentile exists if and only if the sample is not empty and the fraction is between zero and one |
| OrderStatistics.PercentileUnique | evals/statistics.py:12-19 | that description fits exactly the value returned |
| OrderStatistics.PercentileOrderIndependent | evals/statistics.py:12-19 | permuting the sample changes nothing |
| OrderStatistics.PercentileMonotoneInP | evals/statistics.py:12-19 | a larger fraction never gives a smaller percentile |
| OrderStatistics.PercentileMonotone | evals/statistics.py:12-19 | raising samples never lowers a percentile |
| OrderStatistics.RunnerP95IsPercentile | evals/runner.py:64-69 | the runner's own p95 is the percentile at 0.95, the empty case included |
| OrderStatistics.AggregateMonotone | evals/runner.py:72-85 | every aggregation is monotone in every score |
| OrderStatistics.AggregateBound | evals/runner.py:72-85 | a bound on every score bounds the mean, minimum, maximum and p95 |
| GateLaws.NeededIsLeast | evals/statistics.py:12-19 | the rank of a percentile is the least integer at or above p times the number of samples |
| GateLaws.AggregateMeans | evals/runner.py:64-85 | which value each aggregation stands for: the total, the value that times their number gives it, the sample no other is below, the one no other is above, the percentile at 0.95 |
| GateLaws.AggregateBelow | evals/runner.py:64-85 | every aggregation is strictly monotone: when every score, scaled and moved, stays below its partner, so does the aggregate |
| Wilson.WilsonCharacterised | evals/statistics.py:57-71 | a rate is in the interval if and only if the observed rate is within z standard errors of it, and is one of its ends if and only if it is exactly z standard errors away; both ends lie in [0, 1], so the clamps change nothing, and the observed rate is inside |
| Wilson.WilsonInCounts | evals/statistics.py:57-71 | the same in the counts: the rate times n is the successes s, and x is in the interval if and only if (n x - s)^2 is at most z^2 n x (1 - x) |
| Wilson.WilsonMonotone | evals/statistics.py:57-71 | at a fixed total both ends rise with the successes |
| Wilson.WilsonMirror | evals/statistics.py:57-71 | counting failures instead of successes mirrors the interval |
| Wilson.WilsonNarrows | evals/statistics.py:57-71 | at the same rate a larger sample gives an interval inside the smaller sample's |
| Wilson.ComparisonMeans | evals/statistics.py:74-88 | a comparison exists if and only if both pairs of counts are valid; intervals that do not overlap settle the sign of the difference; the record never claims significance and carries the note that says why |
| Wilson.ComparisonRecords | evals/statistics.py:74-88 | a comparison holds both intervals in their places, and its difference is positive if and only if the candidate's successes weigh more |
| EvalRunner.RunSuite | evals/runner.py:88-159 | a run exists if and only if every case has a response and only declared metrics; its scores aggregate each metric over the cases that have it, in case order, and it lists the trace identifiers of all cases |
| EvalRunner.TracesAreOfCases | evals/runner.py:88-159 | the trace identifiers of a run are exactly those of its cases |
| GateLaws.CaseScoresMean | evals/runner.py:107-109 | the scores of a case are its grades, the response's cost as `cost_usd` and its duration as `latency_ms` |
| GateLaws.RunMeans | evals/runner.py:88-159 | a run scores exactly the declared metrics something was reported about, each by its declared aggregation of what grading, costs and durations reported, case by case |
| GateLaws.RunExists | evals/runner.py:100-113 | a run exists if and only if every case has a response and every metric, cost and latency included, is declared |
| EvalRunner.AppendScores | evals/runner.py:110-113 | one case's scores go to the end of their metrics' lists, or an undeclared metric is reported |
| EvalRunner.Aggregated | evals/runner.py:124-128 | metrics with no score are left out, the others aggregated |
| EvalRunner.ScoresMonotone | evals/runner.py:72-128 | case-by-case improvement carries over to every aggregated score |
| EvalRunner.ScoresNonNegative | evals/runner.py:72-128 | non-negative case scores aggregate to non-negative scores |
| RegressionGate.CompareRuns | evals/gate.py:22-103 | a verdict exists if and only if the runs are comparable; it lists the primary check and every guardrail check in order and passes if and only if all of them do; GateLaws.VerdictMeans says so in scores |
| RegressionGate.EvaluateGuard | evals/gate.py:60-93 | one guardrail, with its error cases: the check that GateLaws.VerdictRecords describes, or none exactly when it cannot be evaluated |
| RegressionGate.GateMonotone | evals/gate.py:22-103 | a candidate that is no worse in any case passes, whatever the aggregations |
| GateLaws.ComparableMeans | evals/gate.py:27-63 | two runs can be compared if and only if they are of the suite, at one version, score the primary, and every guardrail names a metric both score and a known comparison |
| GateLaws.VerdictMeans | evals/gate.py:36-103 | a verdict passes if and only if, in scores, the primary fell by at most the allowance, no `not_increase` metric rose, and every ratio and limit holds, a baseline of zero admitting only zero under a ratio |
| GateLaws.VerdictRecords | evals/gate.py:42-91 | each check shows the metric, the two scores and the judgement on them, the primary first |
| GateLaws.WorseIsRejected | evals/gate.py:22-103 | the strict dual: a candidate that breaks one guardrail in every case that has its metric, or falls below the primary by more than the allowance in every case, is rejected, for all five aggregations |
| GateLaws.RiseIsRejected | evals/gate.py:64-66 | a count of violations that rises from none to seven is rejected |
| RegressionGate.SelfComparison | evals/gate.py:36-83 | exactly when a run passes against itself |
| RegressionGate.RatioRejectsUnchanged | evals/gate.py:60-93 | under a ratio of two an unchanged run passes with a score that is not negative and fails with a negative one |
| ReleaseGate.CriticalCaseChecks | evals/release.py:170-195 | one check for each case and each critical metric it scores, in order; all pass if and only if every case is within every critical maximum it scores |
| ReleaseGate.ValidateRunIdentity | evals/release.py:149-167 | a run is accepted if and only if suite, version, commit and profile are the pinned ones |
| ReleaseGate.SupplementalChecks | evals/release.py:198-255 | one check per required name, with the evidence it looked at, passing if and only if the evidence is there, backed and, where statistical, large enough with a method; all pass if and only if all evidence does |
| ReleaseGate.EvaluateRelease | evals/release.py:258-319 | a decision exists if and only if nothing required is missing or misidentified; it lists the verdict of every suite, every critical check and every check of evidence in order and passes if and only if every suite, every case and, in release mode, every piece of evidence does; a decision that passes means every case is within every critical maximum whatever the aggregates, every suite compares the pinned runs of the pinned profiles, and in release mode the evidence is real and complete |
| ReleaseGate.ReleasedBoundsAggregates | evals/release.py:303-319 | after a release every aggregated critical score except a sum is within its maximum |
| ReleaseLaws.DecidesExactly | evals/release.py:258-315 | the gate decides if and only if some suite is required, each is run on both sides as the manifests pin it and can be compared, and, for a release, both manifests are of real evidence and the policy asks for a sample |
| ReleaseLaws.ReleasesExactly | evals/release.py:303-319 | it releases if and only if, in scores, every required suite's primary and guardrails hold and no case is above a critical maximum, and, for a release, every required evidence is passed, backed and, where statistical, sampled with a method |
| ReleaseLaws.CriticalRecords | evals/release.py:170-195 | the critical checks are exactly those of a case and a limit on a metric it scores, with its score |
| ReleaseLaws.EvidenceRecord | evals/release.py:221-254 | the check of one piece of evidence passes exactly when the evidence counts, and shows what was looked at |
| ReleaseLaws.EvidenceListed | evals/release.py:313-315 | a decision lists the check of each required evidence in order, for a release only |
| ReleaseLaws.CriticalListed | evals/release.py:303-311 | it lists the critical checks of the required suites' candidates, suite by suite |
| ReleaseLaws.VerdictsListed | evals/release.py:303-311 | and the verdict of each required suite in order, which passes exactly when, in scores, its primary and guardrails hold |
| AcceptanceAssembler.IndexItems | scripts/final-acceptance-assembler.py:228-234 | the index exists if and only if no identifier repeats |
| AcceptanceAssembler.ScenarioBlockers | scripts/final-acceptance-assembler.py:245-297 | no blocker if and only if the result may be released |
| AcceptanceAssembler.NormalizeScenarios | scripts/final-acceptance-assembler.py:245-300 | all results normalised in matrix order, or nothing when one of them blocks |
| AcceptanceAssembler.ValidateUpstreams | scripts/final-acceptance-assembler.py:332-340 | every known gate has a valid decision, frozen by its digest |
| AcceptanceAssembler.ValidateResults | scripts/final-acceptance-assembler.py:209-300 | results of the right release and candidate, matched one to one with the matrix, none blocking |
| AcceptanceAssembler.Assemble | scripts/final-acceptance-assembler.py:302-395 | writes exactly the two output files when every check holds, and otherwise changes nothing |
| AcceptanceMeaning.AssembledExactly | scripts/final-acceptance-assembler.py:302-355 | a package is assembled if and only if, in the fields of the files, the inputs are in place, the manifest names a candidate and a deployment that all six passed decisions and the results are of, both validators consent, and every scenario has a result that may be released |
| AcceptanceMeaning.ReleaseWritten | scripts/final-acceptance-assembler.py:370-391 | the emitted release carries the manifest's candidate, deployment and domain, freezes the manifest and each decision as they are, lists no blockers and hands on what the authorization says |
| AcceptanceMeaning.EvidenceWritten | scripts/final-acceptance-assembler.py:359-369 | the emitted evidence holds, in matrix order, the result that answers each scenario: as it was, digests in lower case, and the five parts of an explanation when it is postponed |
| AcceptanceMeaning.InputsWritten | scripts/final-acceptance-assembler.py:370-391 | the emitted release freezes governance, authorization, matrix and results with the digests they have when it is written |
| AcceptanceMeaning.OutputPaths | scripts/final-acceptance-assembler.py:350-357 | where the two files are written |
| AcceptanceFiles.ItemsByIdKeys | scripts/final-acceptance-assembler.py:228-234 | the index holds exactly the identifiers that occur, each with an item of that identifier |
| AcceptanceGate.VerifyFrozenFile | scripts/final-acceptance-gate.py:48-75 | adds a blocker exactly when the reference does not hold |
| AcceptanceGate.ValidateReleaseManifest | scripts/final-acceptance-gate.py:85-154 | adds a blocker exactly when something the manifest must have is missing |
| AcceptanceGate.ValidateUpstreamGates | scripts/final-acceptance-gate.py:157-209 | adds a blocker exactly when a required decision is missing, changed, not passed, without evidence or of another candidate, as AcceptanceMeaning.DecidedExactly says field by field |
| AcceptanceGate.ValidateProductionManifest | scripts/final-acceptance-gate.py:212-237 | adds a blocker exactly when the deployment manifest is not the frozen one or names something else |
| AcceptanceGate.ValidateScenarios | scripts/final-acceptance-gate.py:301-338 | the loop over the scenarios counts every final status and adds a blocker exactly when an item is not acceptable |
| AcceptanceGate.ValidateAcceptanceEvidence | scripts/final-acceptance-gate.py:248-338 | adds a blocker exactly when the evidence is not clean, and returns the status counts |
| AcceptanceGate.NoRepeatsCounted | scripts/final-acceptance-gate.py:281-283 | comparing the size of the index with the list finds repeated identifiers and nothing else |
| AcceptanceGate.Evaluate | scripts/final-acceptance-gate.py:341-370 | the verdict is positive if and only if everything demanded holds, which AcceptanceMeaning.AcceptedExactly says field by field: no blocker is lost on the way |
| AcceptanceMeaning.AcceptedExactly | scripts/final-acceptance-gate.py:341-370 | a package is accepted if and only if, in the fields of the files, the release is documented, approved and handed over, every required gate's recorded file holds a decision that passed, has an identifier and evidence on record, and names the candidate where it must, the deployment is the frozen one, and every scenario passes with evidence or, when it may wait, is explained |
| AcceptanceMeaning.DecidedExactly | scripts/final-acceptance-gate.py:157-209 | one upstream decision, in the fields of its file |
| AcceptanceMeaning.AnsweredExactly | scripts/final-acceptance-gate.py:301-338 | one scenario: passed with evidence on record, or postponed, below high severity and not P0, with all five parts of an explanation |
| AcceptanceMeaning.DocumentedExactly | scripts/final-acceptance-gate.py:85-154 | the release manifest, in its fields |
| AcceptanceMeaning.RecordMeans | scripts/final-acceptance-gate.py:48-75 | a frozen reference holds if and only if its path is named, lies under one of the roots, and the file there has the recorded digest |
| AcceptanceMeaning.UnderMeans | scripts/final-acceptance-gate.py:33-41 | a path lies under a root when it is the root or continues it after a slash |
| TextLaws.PresentMeans | scripts/final-acceptance-gate.py:29-30 | a value is present if and only if something other than white space is left of it, and that is not the placeholder in any mixture of cases |
| TextLaws.StripsTo | scripts/final-acceptance-gate.py:29-30 | what stripping leaves of text between white space |
| TextLaws.LowerMeans | scripts/final-acceptance-gate.py:60 | lower case moves the letters A to Z, each to its own small letter, and nothing else |
| TextLaws.UpperMeans | scripts/final-acceptance-gate.py:29-30 | upper case moves the letters a to z, each to its own capital, and nothing else |
| TextLaws.HexMeans | scripts/final-acceptance-gate.py:12-13 | what a commit and a digest are |
| TextLaws.AffixMeans | scripts/final-acceptance-gate.py:33-41 | what it is to start and to end with a text |
| TextLaws.PathMeans | scripts/final-acceptance-assembler.py:119 | the directory of a path and the name in it |
| AcceptanceMeaning.FailedDecisionBlocks | scripts/final-acceptance-gate.py:183-184 | an accepted package whose decision of a required gate is failed, and frozen anew, is not accepted |
| AcceptanceGate.AcceptedScenario | scripts/final-acceptance-gate.py:278-338 | in an accepted package every scenario is answered by exactly one item, which is clean, and there are no other items |
| AcceptanceGate.AcceptedCounts | scripts/final-acceptance-gate.py:301-310 | in an accepted package no status is FAIL and the other counts add up to the number of scenarios |
| AcceptanceAgreement.UpstreamsAgree | scripts/final-acceptance-gate.py:157-209 | decisions the assembler took are decisions the gate takes, if and only if the writes left them alone and the candidate is spelled alike |
| AcceptanceAgreement.ItemsAgree | scripts/final-acceptance-assembler.py:241-300 | the normalised results are clean for the gate if and only if the writes left their evidence alone |
| AcceptanceAgreement.Agreement | scripts/final-acceptance-assembler.py:302-395 | for any validator: what the assembler emits the gate accepts, if and only if the commit is in lower case, the matrix requires exactly the six gates, the authorization names every role and handoff, and the two writes replaced nothing that was checked |
| AcceptanceAgreement.AssembledIsAccepted | scripts/final-acceptance-assembler.py:302-395 | for a validator whose authorization is complete, the same as a guarantee, with conditions a caller can check before assembling |
| ReleasePipeline.AssembleRelease | scripts/final-acceptance-assembler.py:177-206 | the assembly with the authorization validator of version 1 over the same files: it writes exactly the two output files when every check holds, and otherwise changes nothing |
| ReleasePipeline.ReleaseAgreement | scripts/final-acceptance-assembler.py:302-395 | with its own validator, what the assembler emits the gate accepts, if and only if the commit is in lower case, the matrix requires exactly the six gates, and the two writes replaced nothing that was checked |
| ReleasePipeline.ReleaseIsAccepted | scripts/final-acceptance-assembler.py:302-395 | the same as a guarantee, with conditions a caller can check before assembling |
| ReleasePipeline.BuiltReportAuthorizes | scripts/capture_release_authorization.py:337-451 | a report version 1 built, stored beside its policy and request, authorizes the release of its own candidate if and only if the request lies under the evidence root |
| AcceptanceExample.EmittedButRefused | scripts/final-acceptance-assembler.py:114-129 | packages the assembler emits and the gate refuses: a commit in capitals, or a matrix that requires no gate |
| AcceptanceExample.OverwrittenDecision | scripts/final-acceptance-assembler.py:302-395 | a package one of whose checked decisions stands where the release is written: emitted and refused, whatever the commit and the gates |
| AcceptanceExample.EmittedAndAccepted | scripts/final-acceptance-assembler.py:302-395 | the same package, its authorization built by version 1, with a commit in lower case and the six gates required is emitted and accepted |
| AcceptanceExample.FailedDecisionRefused | scripts/final-acceptance-gate.py:183-184 | that package, with any one of its decisions failed and frozen anew, is refused |
| Latency.ListStages | scripts/derive_performance_ai_latency.py:92-101 | the loop over the measures returns the specified list |
| Latency.RequiredStagesAre | scripts/derive_performance_ai_latency.py:92-101 | each stage is required once, and exactly when some measure asks for it |
| Latency.GroupEvents | scripts/derive_performance_ai_latency.py:219-230 | the loop blocks exactly on drift of a task's operation, and otherwise returns totals, operations and failed tasks |
| Latency.JoinSamples | scripts/derive_performance_ai_latency.py:235-244 | the loop blocks exactly on repeated identifiers or unknown tasks, and otherwise adds every sample to its task |
| Latency.AnyUiMeans | scripts/derive_performance_ai_latency.py:233-234 | some total has a browser stage exactly when some event reports one |
| Latency.BuildRows | scripts/derive_performance_ai_latency.py:246-265 | one row per task in sorted order, or a block when a task lacks a required stage or has a failed event |
| Latency.Derive | scripts/derive_performance_ai_latency.py:190-312 | the derivation, step by step, computes the specified report or blocks; the LatencyReports lemmas say which of the two, and what each number of the report is |
| LatencyReports.DerivedExactly | scripts/derive_performance_ai_latency.py:190-265 | a report is derived if and only if, in the fields of events and samples, the profile asks for something, all lines are sound, of one run, commit and profile, fit each other, none failed, and every task has time for every stage asked for |
| LatencyReports.HeadMeans | scripts/derive_performance_ai_latency.py:205-217 | the report is of the run, commit and profile of every event, and lists each stage the profile asks for once |
| LatencyReports.MeasureAsks | scripts/derive_performance_ai_latency.py:16-27 | which measures ask for which stage |
| LatencyReports.StageSummaryMeans | scripts/derive_performance_ai_latency.py:265-272 | the summary of a required stage counts one sample for each row, and holds the percentiles at 0.5 and at 0.95 of the times attributed to the stage, the first no larger than the second |
| LatencyReports.OverheadMeans | scripts/derive_performance_ai_latency.py:253-310 | a row's overhead is the time attributed to the seven stages that are not the provider's; its summary is over all rows |
| LatencyReports.ProviderMeans | scripts/derive_performance_ai_latency.py:275-304 | there is a provider summary if and only if some event is the provider's, and it is over the tasks that have one |
| LatencyReports.TwoSamples | scripts/derive_performance_ai_latency.py:182-187 | of ten and twenty, the median is ten and the percentile at 0.95 twenty |
| LatencyLaws.RowMeans | scripts/derive_performance_ai_latency.py:246-265 | each stage of a row holds exactly the time reported for that task and stage; overhead and provider time make up the row's total; none of its events failed |
| LatencyLaws.OneRowPerTask | scripts/derive_performance_ai_latency.py:246-265 | every task with events has exactly one row, rows sorted by task |
| LatencyLaws.ReportConservesTime | scripts/derive_performance_ai_latency.py:219-265 | overhead plus provider time over all rows is the sum of all event and browser durations |
| LatencyLaws.OrderDoesNotMatter | scripts/derive_performance_ai_latency.py:190-312 | any permutation of events and of samples gives the same report, or a block either way |
| BoundedLoad.Scheduler.Fill | scripts/perf-http-load.py:78-84 | fills the window up to the limit |
| BoundedLoad.WindowMeans | scripts/perf-http-load.py:78 | twice as many requests in flight as workers, but no more than there are requests |
| BoundedLoad.Scheduler.Collect | scripts/perf-http-load.py:87-91 | one finished request is collected and replaced by a new one while any remain; the books still balance and the window stays full |
| BoundedLoad.Scheduler.Turn | scripts/perf-http-load.py:85-91 | for any non-empty set of finished requests, collected in any order: submitted equals collected plus pending, pending stays within the limit, the window stays full |
| BoundedLoad.RunBounded | scripts/perf-http-load.py:75-91 | under every order of completion the loop ends with exactly one result for each request, the answer given at the moment it completed |
| BoundedLoad.CountResults | scripts/perf-http-load.py:119-124 | the loop over the results returns the specified counters |
| BoundedLoad.ClassesAddUp | scripts/perf-http-load.py:121-124 | the status classes add up to the number of results |
| BoundedLoad.ClassMeans | scripts/perf-http-load.py:121-124 | each class counts exactly the results of that class |
| BoundedLoad.ErrorsMean | scripts/perf-http-load.py:120 | the errors are the responses that are not ok |
| BoundedLoad.ClassIs | scripts/perf-http-load.py:123 | no status is a network failure, the others are classed by their hundreds |
| BoundedLoad.CompletionOrderDoesNotMatter | scripts/perf-http-load.py:75-124 | for a server whose answers do not depend on timing, whatever the order of completion, the results are the sequential ones rearranged and the counters are the same |
| Rollout.RunMeans | evals/release_control.py:61-85 | the state after any run of events, as a function of the healthy advances before the first effective rollback and of whether there was one |
| Rollout.AliasIsSafe | evals/release_control.py:61-85 | users get the candidate if and only if it is promoted, that is after at least five healthy advances and no effective rollback |
| Rollout.PromotedAtTheFifth | evals/release_control.py:70-73 | the event that promotes is healthy, with exactly four healthy ones and no effective rollback before it |
| Rollout.NeverBackwards | evals/release_control.py:66-75 | from any state with a known stage, the stage never moves backwards |
| Rollout.FinalStatuses | evals/release_control.py:61-85 | no event leaves rolled_back, and only an effective rollback leaves promoted |
| Rollout.AdvanceMeans | evals/release_control.py:61-75 | an advance is made if and only if the rollout is in shadow or canary at a known stage and the observation is healthy; it moves to the next stage, or from the last one promotes the candidate |
| Rollout.RollbackMeans | evals/release_control.py:78-85 | a rollback is made if and only if its reason is not blank, from any state, and gives users the baseline again |
| Rollout.ReasonMeans | evals/release_control.py:41-58 | the first guardrail that fails gives the reason |
| Rollout.RunInFields | evals/release_control.py:61-85 | alias, status and stage after any run, from the healthy advances before the first effective rollback and from whether there was one |
| Services.ValidateContract | scripts/production-deployment-decision.py:109-155 | adds a blocker exactly when the capacity contract is not clean, and returns its counts only when it is |
| Services.ValidateServices | scripts/production-rollback-rehearsal-decision.py:170-207 | adds a blocker exactly when the seven services are not clean |
| Services.EvaluateRehearsal | scripts/production-rollback-rehearsal-decision.py:248-292 | a rehearsal passes if and only if both runtimes are clean and their capacities are the same; it hands that capacity on |
| Services.EvaluateDeployment | scripts/production-deployment-decision.py:192-286 | a deployment passes if and only if its services are clean and the rehearsal handed on the same capacity |
| Services.NothingOverwritten | scripts/production-deployment-decision.py:201-210 | a last-wins index with as many names as rows has one row for each name |
| Services.CleanServices | scripts/production-rollback-rehearsal-decision.py:157-207 | clean services: one row each, the same positive count in row and contract, the image the manifest names |
| Services.DeploymentAgrees | scripts/production-deployment-decision.py:192-286 | a passing deployment has one positive count per service, identical in row, contract and rehearsal |
| Services.RehearsedAndDeployed | scripts/production-rollback-rehearsal-decision.py:233-292 | rollback target, restored release and deployment run every service at the same count |
| ServiceLaws.CleanExactly | scripts/production-rollback-rehearsal-decision.py:106-207 | services are clean if and only if the manifest lists the right images, the contract is of this deployment and counts each service, and there is one steady row for each that runs its own image, as expected, at its count |
| ServiceLaws.CapacityExactly | scripts/production-rollback-rehearsal-decision.py:106-154 | the capacity of a runtime: the counts of its contract when that is of this deployment and the rows expect what it says, otherwise nothing |
| ServiceLaws.SevenServices | scripts/production-rollback-rehearsal-decision.py:22-30 | the seven services and their images |
| ServiceLaws.DeploymentExactly | scripts/production-deployment-decision.py:192-286 | a deployment passes if and only if its services are in order and the rehearsal handed on, for this deployment and as preserved, the same counts |
| ServiceLaws.RehearsalExactly | scripts/production-rollback-rehearsal-decision.py:248-292 | a rehearsal passes if and only if both runtimes are in order with the same counts |
| ServiceLaws.HandoverMeans | scripts/production-rollback-rehearsal-decision.py:248-292 | what a rehearsal hands on, preserved exactly when both capacities are the same and not empty |
| ServiceLaws.HandoverFits | scripts/production-deployment-decision.py:284-297 | what a rehearsal that passes hands on is taken by a deployment if and only if it is in order at the same counts |

## Left out

- Values of `const` and `enum` that are not scalars, boolean schemas, `prefixItems` and escapes in `$ref` pointers.
- The characters of the generated file other than component names: types are lists of tokens, so quoting, layout and JSON text are not modelled.
- Names that TypeScript reserves beyond the words the generator writes itself, and identifiers with letters outside ASCII.
- `_parameter_type`, `_request_body_type`, `_response_type` and `_operation_map`: they assemble already printed types.
- Fields that are missing or of the wrong JSON type, except where a field is an option in the model.
- The direction a metric declares, which the regression gate never reads.
- The wording of errors and blockers; what is modelled is whether there is any.
- Identifiers, timestamps and fingerprints that only label a decision, and the clock they come from.
- Hashing: a digest is an arbitrary function from contents to 64 hexadecimal digits.
- Resolution of paths against the file system: paths are canonical strings.
- Letters and blanks outside ASCII in case folding and in stripping.
- Fetching pull requests, reviews and responses: they are parameters.
- The repository-governance validator, whose verdict is an input of the assembler.
- AcceptanceAssembler.Assemble: does not model the call of the authorization validator, whose result is an input; ReleasePipeline.AssembleRelease does.
- ReleaseGate.EvaluateRelease: does not model the parsing and fingerprints of manifests and policy.
- EvalRunner.RunSuite: does not model grading, which is an input, the hash that identifies a run, or aggregations outside the five that loading accepts (evals/models.py:77-78).
- IEEE rounding: scores, times and intervals are exact reals, and a square root is the non-negative number with that square.
- `summarize_samples`: closed formulas for mean, deviation and a normal interval.
- The load generator's own percentile: the same rank, with zero for an empty list.
- AcceptanceGate.Evaluate: does not model which blockers are listed, only that none is; nor fields of the release that the gate never reads.
- BoundedLoad.RunBounded: does not model threads; the executor may complete any non-empty set of pending requests at each wait, and an answer depends on the request and on how many were collected before it.
- Services.EvaluateDeployment: does not model the other checks of the decision, flat comparisons of fields, which are one input.
- Services.EvaluateRehearsal: does not model the rollback-relationship gate and the smoke checks, flat comparisons of fields, which are one input.
- Plans for shadow traffic (`validate_shadow_plan`), which is a flat checklist.
- The version 2 assembler, which differs from version 1 in the accepted evidence roots.
