# EyeNet: verified models of its hard core

This project models the parts of EyeNet whose correctness rests on an argument rather than on a
glance at the code, and proves those arguments in Dafny 4.11. `dafny verify dfyconfig.toml` checks
all of it.

| part | modules |
|---|---|
| Ed25519 public-key gate: point decompression, the small-order test, and the curve constants | `NumberTheory`, `Primality`, `Certificate`, `Field`, `Bytes`, `Ed25519`, `SmallOrder`, `KeyLoading`, `SmallOrderPoints`, `KeyBytes` |
| canonical signing bytes: five length-prefixed schemes | `Utf8`, `Decimal`, `Frames`, `CanonicalLayout` |
| linkage: the inverted-index edge proposer and crews as connected components | `InfraLinker`, `InfraProperties`, `UnionFind`, `Components`, `Crews`, `CrewProperties`, `CrewOrder`, `Sorting`, `Rounding` |
| calibration: AUC, threshold sweeps, operating points, recipe searches | `Ratios`, `Calibration`, `OperatingPoints`, `RoundedPicks`, `ReportedNumbers`, `Recipes`, `RecipeOptimality`, `LurkerRecipe`, `Cohorts`, `LurkerClaims`, `LurkerFloors`, `LurkerCohorts` |
| tamper-evident chains: the audit log and the file-access journal | `AuditChain`, `JournalChain` |
| services as step systems: bus, engine, incident buffer, backfill, cursors | `Subjects`, `MemoryBus`, `GroupFairness`, `ProfileEngine`, `IncidentBuffer`, `Backfill`, `Base64`, `Paging` |

Code that updates state in place is a class or a method with loops, proved against a specification;
code made of expressions is functions and lemmas. `Wrappers` and `Lists` hold what several modules share.

The key gate is proved twice: for every curve whose modulus is a prime p with p mod 8 = 5 and whose
d is no square, and then for the constants in the source with no hypothesis left. That second step
proves 2^255 - 19 prime by Pocklington's criterion; `Certificate.dfy` lists the powers involved. It
is printed by `tools/certificate.py`, and the verifier checks every line of it.

## What the code does where its words say otherwise

- `eyenet/contracts/audit.py:3-5` says that insertion, deletion or edit breaks the chain on a
  forward walk, and line 81 that moving a row does. The walk alone misses a cut tail, an appended row
  and an edited last row: a log checks out exactly when it is what the store would have written for
  the log's own contents, and any well-hashed continuation of any of its prefixes checks out too.
  `AuditChain` states exactly when each change passes, and that two chains ending in the same head are
  equal unless they exhibit a collision or a preimage of the genesis marker. It holds for any content
  and digest: `AuditLog` is the audit log, and `JournalChain.Journal` the file-access journal, whose
  walk promises the same (`eyenet/storage/sqlmodel_repo/file_access.py:567-569`). For the journal the
  hashed bytes are modelled: sha256 is taken over the canonical row and, without a frame, the previous
  hash, and nothing is confused because no canonical form is the beginning of another.
- `eyenet/calibration/recipes_grid.py:10-12` says that the lurker search picks the pair of thresholds
  of most recall at precision 0.70. The code searches the two patterns apart and joins them, and both
  halves fail on cohorts that message logs can produce (`LurkerCohorts.JoinedMissesShippedFloor`,
  `LurkerCohorts.SearchMissesRecall`, both at 0.70). How many lurkers the two patterns match decides
  each half, for every floor. Let a floor allow each number of hits its most alarms: at 0.70, three
  for seven. Whatever other actors the cohort has, the floor is met exactly when at every pair of grid
  thresholds below initiation rate 1 the alarms the two patterns may have add up to no more than the
  pair may have; and the recall is the most exactly when at every such pair each pattern may have as
  many alarms as the pair, or the other alone matches as many lurkers. Over all floors together the
  floor is met exactly when no lurker has an initiation rate of at most 0.95, at most 10 messages a
  day and a span of at least 7 days, and the recall is the most exactly when at every such pair the
  two patterns' reaches are nested among the lurkers. What always holds: the search hits at least as
  many lurkers as any pair of grid thresholds that each meet the floor, and once a pattern survives
  its precision is at least floor / (2 - floor).
- The chatty-member search tries message counts only. With a floor of zero or less it can miss a
  better threshold, one that nobody reaches; `ChattyOptimalExactlyWhen` says when, and
  `ZeroFloorMissesBetter` shows one actor for whom it does.
- `derived_from_observation_count` counts stored updates, not observations. It is the same number as
  `version`, and smaller than the number of mapped observations exactly when one of them repeated the
  last value seen for its slot while the recipes left the role alone.
- A changed confidence alone is not material: the stored confidence is the older one exactly when the
  update was skipped.
- The journal-row comment in `_file_access_signing.py` says that the length prefix tells a
  present-empty field from an absent one. The frame of an optional id confuses exactly those two; with
  ids that are absent or have 16 bytes nothing is confused.
- The docstring of `decode_cursor` says that a malformed cursor is a 422. `b64decode` skips unknown
  characters, so a stray character in front of a cursor still decodes (`Paging.MalformedCursorAccepted`).
  An accepted cursor is the one `encode_cursor` writes exactly when it is canonical base64url of plain
  digits.
- The small-order test speaks of the identity and seven other points: over the real curve exactly
  eight encodings are refused as small order, and `SmallOrderPoints` lists the points.
- The two grids compare precision and recall rounded to four places, so a row slightly under the
  floor can qualify (`RoundedPicks.RoundingAdmitsBelowFloor`) and the fallback can miss the row of most
  precision (`RoundedPicks.FallbackMissesMostPrecise`). When some stored row meets the floor, for a
  floor in tenths and fewer than 2000 pairs, both grids choose what exact arithmetic chooses; when none
  does, they fall back to what it falls back to for at most 100 pairs.
- The two grids break ties differently: with no row at the floor the distance grid falls back to the
  smaller threshold and the score grid to the larger one.

## Model

| member | source | states |
|---|---|---|
| Ed25519.DecodeIsInverseOfEncode | eyenet/crypto/_file_access_signing.py:228-266 | decoding 32 bytes yields a point if and only if the bytes are the RFC 8032 section 5.1.2 encoding of that very point and the point is on the curve; covers both root branches, the sign fix, y >= p and x = 0 |
| Ed25519.DenominatorNonZero | eyenet/crypto/_file_access_signing.py:253-255 | d*y^2 + 1 is never zero, so the inversion by a power is a real division |
| Ed25519.CurveEquation | eyenet/crypto/_file_access_signing.py:251-255 | x is on the curve with y exactly when x^2 is the x2 the code computes |
| Ed25519.RootFound | eyenet/crypto/_file_access_signing.py:257-261 | whenever x2 has a square root, one of the two candidates is one |
| Ed25519.SignFixed | eyenet/crypto/_file_access_signing.py:262-266 | the returned coordinate is a root in range with the wanted low bit |
| Ed25519.RootByParity | eyenet/crypto/_file_access_signing.py:264-265 | among the roots of one square the low bit picks exactly one, and zero only against zero |
| Field.InverseByPower | eyenet/crypto/_file_access_signing.py:255 | v * v^(p-2) is 1 modulo p for every non-zero v |
| Field.RootCandidate | eyenet/crypto/_file_access_signing.py:257 | a^((p+3)/8) squares to a or to -a for every square a |
| Field.NonSquareTimesSquare | eyenet/crypto/_file_access_signing.py:254 | d*y^2 is neither 1 nor -1 when d is no square |
| Bytes.BytesOfNumber | eyenet/crypto/_file_access_signing.py:244-246 | reading the little-endian bytes of a number that fits gives the number |
| Bytes.NumberOfBytes | eyenet/crypto/_file_access_signing.py:244-246 | writing out the number read from bytes gives the bytes |
| SmallOrder.DoublingRefines | eyenet/crypto/_file_access_signing.py:285-297 | each extended doubling keeps Z non-zero and X*Y = Z*T, and X/Z, Y/Z become the coordinates of the affine double |
| SmallOrder.DoublingKeepsEquation | eyenet/crypto/_file_access_signing.py:285-297 | extended doubling keeps the projective curve equation |
| SmallOrder.DoubleOnCurve | eyenet/crypto/_file_access_signing.py:285-297 | the affine double of a curve point is a curve point |
| SmallOrder.SmallOrderIsEightTimes | eyenet/crypto/_file_access_signing.py:269-301 | the test says yes exactly when eight times the point is the identity |
| KeyLoading.TorsionEquation | eyenet/crypto/_file_access_signing.py:269-301 | independently: it says yes on a curve point exactly when x*y*(x^2 + y^2) is zero |
| KeyLoading.LoadsExactlySafeKeys | eyenet/crypto/_file_access_signing.py:304-347 | up to the backend's check, exactly the 32-byte encodings of curve points outside the 8-torsion load, and unchanged |
| KeyLoading.Ed25519IsSound | eyenet/crypto/_file_access_signing.py:221-225 | the source's p is prime, its root squares to -1 and its d is no square |
| KeyLoading.Ed25519LoadsExactlySafeKeys | eyenet/crypto/_file_access_signing.py:221-347 | the same for the real curve, unconditionally |
| SmallOrderPoints.RefusedPoints | eyenet/crypto/_file_access_signing.py:269-301 | over the real curve the refused curve points are the identity and seven others, listed |
| SmallOrderPoints.OrderEight | eyenet/crypto/_file_access_signing.py:269-301 | a curve point with x^2 + y^2 = 0 has the two given coordinates up to sign |
| SmallOrderPoints.ExactlyEightRefused | eyenet/crypto/_file_access_signing.py:275-281 | exactly eight 32-byte keys decode and are refused as small order, all different |
| Bytes.LittleEndianDigit | eyenet/crypto/_file_access_signing.py:244-246 | byte i of a number written out is its digit of weight 256^i |
| Bytes.DigitOfBytes | eyenet/crypto/_file_access_signing.py:244-246 | byte i of a byte string is the digit of weight 256^i of the number it spells |
| KeyBytes.DecodedBytes | eyenet/crypto/_file_access_signing.py:228-266 | in a key that decodes, bytes 0 to 30 and the low seven bits of the last are y, least significant byte first, and the top bit is the low bit of x |
| KeyBytes.IdentityKey | eyenet/crypto/_file_access_signing.py:228-301 | the key 01 00 .. 00 decodes to (0, 1) and is of small order |
| KeyBytes.BasePointKey | eyenet/crypto/_file_access_signing.py:221-301 | the key 58 66 .. 66 decodes to the base point of RFC 8032 and is not of small order |
| Primality.Pocklington | eyenet/crypto/_file_access_signing.py:221 | the primality criterion applied to the modulus |
| Certificate.PIsPrime | eyenet/crypto/_file_access_signing.py:221 | 2^255 - 19 is prime |
| Frames.CanonicalInjective | eyenet/crypto/_file_access_signing.py:69-211 | equal canonical bytes mean the same scheme and the same arguments, across all five schemes, decimal numbers and UTF-8 included |
| Frames.CanonicalPrefixFree | eyenet/crypto/_file_access_signing.py:69-211 | no canonical form is the beginning of another: whatever bytes follow, the scheme, the arguments and what follows are determined, across all five schemes |
| Frames.FrameAllInjective | eyenet/crypto/_file_access_signing.py:69-84 | framing is injective on lists of byte strings of any lengths |
| Frames.FramesFailOnlyOnLength | eyenet/crypto/_file_access_signing.py:69-79 | building fails exactly when some element has 2^32 bytes or more |
| Frames.FrameConfusesExactly | eyenet/crypto/_file_access_signing.py:150-154 | the frame of an optional id is the same for two ids exactly when they are equal or one is absent and the other empty |
| Frames.RowsConfusedExactly | eyenet/storage/sqlmodel_repo/file_access.py:92-117 | two journal rows have the same canonical bytes exactly when they are equal once empty ids are read as absent |
| Frames.RowsWithUuidsInjective | eyenet/storage/sqlmodel_repo/file_access.py:92-117 | with optional ids that are absent or have 16 bytes, equal canonical bytes mean equal rows |
| Frames.FieldsInjective | eyenet/crypto/_exoneration_signing.py:64-94 | within a scheme the field list determines the arguments, here with the counted id list |
| CanonicalLayout.FrameLayout | eyenet/crypto/_file_access_signing.py:69-79 | a frame is four length bytes, most significant first, and the element |
| CanonicalLayout.ReadIsInverse | eyenet/crypto/_file_access_signing.py:69-79 | a reader that knows only the length words accepts exactly the concatenated frames and gets the elements back |
| CanonicalLayout.RequestReads | eyenet/crypto/_file_access_signing.py:87-122 | from a signed request it gets the tag, method, url, request id, timestamp, body hash and content hash, in this order |
| CanonicalLayout.RequestBegins | eyenet/crypto/_file_access_signing.py:87-122 | a signed request begins with 00 00 00 0d and its tag |
| CanonicalLayout.JournalRowReads | eyenet/crypto/_file_access_signing.py:126-171 | from a journal row the tag and thirteen elements in order |
| CanonicalLayout.RowReads | eyenet/storage/sqlmodel_repo/file_access.py:92-117 | the same from the journal's own row, an absent id being an empty element |
| CanonicalLayout.KeyChallengeReads | eyenet/crypto/_file_access_signing.py:186-211 | from a key challenge the tag, the nonce and the key |
| CanonicalLayout.ExonerationReads | eyenet/crypto/_exoneration_signing.py:64-94 | from an exoneration the tag, seven elements, the number of ids and the ids |
| CanonicalLayout.AnchorReads | eyenet/crypto/_anchor_signing.py:41-58 | from an anchor the tag, deployment, number, time and the two heads |
| Utf8.EncodeInjective | eyenet/crypto/_file_access_signing.py:82-84 | different texts have different UTF-8 bytes |
| Utf8.CharLayout | eyenet/crypto/_file_access_signing.py:82-84 | each character has the bit layout of RFC 3629, leading byte first |
| Decimal.ToStringInjective | eyenet/crypto/_file_access_signing.py:162 | different integers print differently |
| Decimal.ToStringLayout | eyenet/crypto/_file_access_signing.py:162 | a minus sign for negative numbers, then the digit of weight 10^i at place i from the right, without a needless zero |
| UnionFind.Forest.Find | eyenet/linker/crews.py:55-62 | terminates, returns the representative, keeps the forest acyclic and every node's root while compressing the path |
| UnionFind.Forest.Union | eyenet/linker/crews.py:64-67 | merges exactly the two classes and leaves every other class as it was |
| UnionFind.CompressKeepsForest | eyenet/linker/crews.py:60-61 | pointing a node at its root changes no class |
| UnionFind.LinkKeepsForest | eyenet/linker/crews.py:66-67 | hanging a root under another keeps the forest acyclic |
| UnionFind.ClimbEndsAtTop | eyenet/linker/crews.py:58-59 | following parents from any node ends at the root the specification names |
| Components.ClassesAreComponents | eyenet/linker/crews.py:69-70 | two endpoints share a class after all unions exactly when a chain of input edges joins them |
| Components.ClassesCoverEndpoints | eyenet/linker/crews.py:69-70 | the forest holds exactly the endpoints of edges |
| Crews.BuildCrews | eyenet/linker/crews.py:46-98 | one crew per component of two or more actors, pairwise disjoint, with sorted members, edge count, rounded peak score, the eight most shared indicators and links strongest first, ties in edge order; crews largest first, ties in the order the edges first mention them |
| Crews.TopInfra | eyenet/linker/crews.py:87 | the top list is the eight best by count and then by name, none left out that should be in |
| Crews.CountShared | eyenet/linker/crews.py:80-81 | the counter holds the number of occurrences of every indicator |
| Crews.MakeCrew | eyenet/linker/crews.py:88-96 | the record describes its component's edges |
| CrewProperties.SameCrewIffConnected | eyenet/linker/crews.py:46-52 | two actors are in the same crew exactly when a chain of edges connects them |
| CrewProperties.EdgeHasOneCrew | eyenet/linker/crews.py:46-52 | every edge between two actors, and every self-loop of an actor with other links, lies in one crew and only one |
| CrewProperties.LinksPartitionEdges | eyenet/linker/crews.py:73-79 | a crew lists an edge as often as the input does when it starts in the crew, never otherwise; edge_count counts them |
| CrewProperties.EdgeOrderIrrelevant | eyenet/linker/crews.py:46-98 | the same edges in another order give every crew a crew with the same members, edge count, peak score and top indicators, and the same links as a multiset |
| CrewProperties.SameNumberOfCrews | eyenet/linker/crews.py:46-98 | and as many crews |
| CrewProperties.EdgeCountsAddUp | eyenet/linker/crews.py:73-79 | the edge counts of all crews add up to the edges outside components that are one actor's self-loops |
| CrewOrder.LargestFirst | eyenet/linker/crews.py:97 | crews stand by falling size and then by falling peak score |
| CrewOrder.TiesByFirstEdge | eyenet/linker/crews.py:97 | crews equal in both stand in the order in which the input first starts an edge in them |
| CrewOrder.PeakIsStrongest | eyenet/linker/crews.py:76-94 | a crew's links fall by score, and its peak is the first one's score, rounded, or zero when no score is positive |
| CrewOrder.EqualScoresKeepInputOrder | eyenet/linker/crews.py:94 | the links of one score are the edges of that score that start in the crew, in input order |
| CrewOrder.TopIsMostShared | eyenet/linker/crews.py:80-87 | the top list is by how often the crew's links name an indicator and then in string order, at most eight, and complete below eight |
| InfraLinker.ProposeInfraEdges | eyenet/linker/infra_linker.py:63-109 | the edges are exactly the pairs brute force finds, each once, with their score and their shared indicators in string order, highest score first |
| InfraLinker.BuildPostings | eyenet/linker/infra_linker.py:79-84 | every indicator's posting list holds each carrier once |
| InfraLinker.Candidates | eyenet/linker/infra_linker.py:89-93 | the candidates are exactly the ordered pairs that share a linkable indicator |
| InfraLinker.ScorePairs | eyenet/linker/infra_linker.py:95-107 | a pair yields a record exactly when it is an edge |
| InfraLinker.WeightAtLeastOne | eyenet/linker/infra_linker.py:58-60 | every indicator weighs at least one |
| InfraLinker.RatioInUnitInterval | eyenet/linker/infra_linker.py:97-105 | every unrounded score is in (0, 1] and the zero-denominator guard never fires |
| InfraLinker.ScoreInUnitInterval | eyenet/linker/infra_linker.py:105 | every proposed score is between 0 and 1 |
| InfraProperties.RarerWeighsMore | eyenet/linker/infra_linker.py:58-60 | fewer carriers weigh more, and the difference of two weights is the logarithm of the ratio of the smoothed numbers of carriers |
| InfraProperties.OneExactlyWhenEverywhere | eyenet/linker/infra_linker.py:58-60 | an indicator weighs one exactly when every actor carries it, else more |
| InfraProperties.RatioIsShare | eyenet/linker/infra_linker.py:97-105 | the score times the weight of all linkable indicators of a pair is the weight of the shared ones |
| InfraProperties.OneExactlyWhenSame | eyenet/linker/infra_linker.py:97-105 | two actors score one exactly when their linkable indicators are the same and not none |
| InfraProperties.RarerScoresHigher | eyenet/linker/infra_linker.py:66-71 | of two pairs with the same indicators between them whose shared ones differ in one, the pair with the rarer one scores higher |
| InfraProperties.HighestFirst | eyenet/linker/infra_linker.py:66-71 | edges fall by score, the smaller actor first in each |
| InfraProperties.SharersAreProposed | eyenet/linker/infra_linker.py:83-107 | at floor zero every two actors that share an indicator with at most max_df carriers are proposed |
| InfraProperties.EvidenceIsShared | eyenet/linker/infra_linker.py:95-106 | the evidence is exactly the shared indicators with at most max_df carriers, in string order |
| Rounding.HalfEvenNearest | eyenet/linker/infra_linker.py:105 | rounding picks a nearest integer, the even one of two |
| Rounding.Round4Monotone | eyenet/linker/infra_linker.py:105 | rounding to four places is monotone |
| Sorting.SortInOrder | eyenet/linker/crews.py:87-97 | the sort puts nothing before something that precedes it |
| Sorting.SortIsStable | eyenet/linker/crews.py:94 | sorting leaves elements that tie in the order they had |
| Sorting.SortKeepsOrder | eyenet/linker/crews.py:97 | if a list is in some order, sorting it otherwise leaves the ties in that order |
| Sorting.LexLessExactlyWhen | eyenet/linker/crews.py:87 | strings are ordered where they first part, a beginning before the longer string |
| AuditChain.VerifyChain | eyenet/contracts/audit.py:97-112 | sound exactly when every row checks out, otherwise the index of the first row that does not |
| AuditChain.PinnedHead | eyenet/contracts/audit.py:91-112 | two verified chains of any lengths with one head are equal, or the comparison returns a collision or a genesis preimage |
| AuditChain.TruncationPasses | eyenet/contracts/audit.py:97-112 | cutting rows off the end is never noticed |
| AuditChain.SoundExactlyWhenBuilt | eyenet/contracts/audit.py:97-112 | a log checks out exactly when it is what the store would have written for the log's own contents |
| AuditChain.RewrittenSuffixPasses | eyenet/contracts/audit.py:97-112 | after any row of a sound log any well-hashed rows may follow |
| AuditChain.DeletionDetected | eyenet/contracts/audit.py:3-5 | exactly when a deleted row goes unnoticed |
| AuditChain.EditDetected | eyenet/contracts/audit.py:3-5 | exactly when a replaced row goes unnoticed |
| AuditChain.SilentEditIsCollision | eyenet/contracts/audit.py:3-5 | an unnoticed edit before the last row is a hash collision |
| AuditChain.InsertionDetected | eyenet/contracts/audit.py:3-5 | exactly when an inserted row goes unnoticed |
| AuditChain.MoveDetected | eyenet/contracts/audit.py:78-84 | exactly when a moved row goes unnoticed |
| AuditChain.FirstRowOfLog | eyenet/contracts/audit.py:36 | the first row of a sound audit log points at 64 zeros |
| JournalChain.VerifyFileAccessChain | eyenet/storage/sqlmodel_repo/file_access.py:564-597 | the verdict of the first row that does not check out, and true exactly when all do |
| JournalChain.PassesExactlyWhenSound | eyenet/storage/sqlmodel_repo/file_access.py:564-597 | on rows that have a canonical form the walk raises nothing and accepts exactly the sound chains |
| JournalChain.BytesDetermineRow | eyenet/storage/sqlmodel_repo/file_access.py:119-121 | rows that hash the same bytes have the same content and the same previous hash, although that hash has no frame |
| JournalChain.JournalHeadPins | eyenet/storage/sqlmodel_repo/file_access.py:564-597 | two sound journals of any lengths with one head are equal, or two different byte strings of their rows have the same sha256, or a row's bytes hash to the genesis seed |
| JournalChain.FirstRowOfJournal | eyenet/storage/sqlmodel_repo/file_access.py:58 | the first row of an accepted journal points at 32 zero bytes and hashes its canonical bytes with them |
| Calibration.MannWhitneyAuc | eyenet/calibration/simhash_grid.py:236-256 | the loops compute the share of won pairs, ties counting half |
| Calibration.ThresholdSweep | eyenet/calibration/simhash_grid.py:259-290 | 65 rows, each with the counts at or under its threshold and the rounded ratios; none for an empty class |
| Calibration.AucIsAreaUnderSweep | eyenet/calibration/simhash_grid.py:236-290 | twice the wins equal the trapezoid sum over the sweep's own rows |
| Calibration.ColumnWins | eyenet/calibration/simhash_grid.py:250-255 | what one more negative adds to the wins |
| ReportedNumbers.AucIsShareOfPairs | eyenet/calibration/simhash_grid.py:236-256 | the reported number is the share of pairs in which the positive is closer, ties counting half; one half with nothing to compare |
| ReportedNumbers.AucExtremes | eyenet/calibration/simhash_grid.py:236-256 | it lies in [0, 1], is one exactly when every positive is closer than every negative, and zero exactly when every one is farther |
| ReportedNumbers.AucIsArea | eyenet/calibration/simhash_grid.py:236-290 | it is the area under the curve of the sweep's rows |
| ReportedNumbers.AucHigherIsShareOfPairs | eyenet/calibration/verifier_grid.py:79-94 | the score statistic is the share of pairs in which the positive scores higher, ties counting half |
| ReportedNumbers.AucHigherExtremes | eyenet/calibration/verifier_grid.py:79-94 | its range and exactly when it is one or zero |
| ReportedNumbers.SweepNumbers | eyenet/calibration/simhash_grid.py:259-290 | row k of 65 counts the entries at k or less and carries the rounded precision, recall and f1 of its counts |
| ReportedNumbers.ScoreSweepNumbers | eyenet/calibration/verifier_grid.py:97-132 | at the default step row k of 101 counts the entries at k/100 or more, with the rounded ratios |
| ReportedNumbers.F1OfCounts | eyenet/calibration/simhash_grid.py:259-290 | f1 is twice the hits over twice the hits and all errors |
| ReportedNumbers.RecipeNumbers | eyenet/calibration/recipes_grid.py:150-154 | a recipe's ratios in terms of its counts, recall being over all actors with the label |
| OperatingPoints.DistanceSweepLaws | eyenet/calibration/simhash_grid.py:259-290 | rows account for every pair; hits, alarms and recall never fall as the threshold rises |
| OperatingPoints.PickPrecisionFloor | eyenet/calibration/simhash_grid.py:302-329 | the most recall among the rows at the floor and the smallest threshold on ties, else the most precision |
| OperatingPoints.PickIsOptimal | eyenet/calibration/simhash_grid.py:302-329 | no integer threshold at the floor recalls more than the picked row, swept or not, and none from zero on that recalls as much is smaller |
| OperatingPoints.TieBreaks | eyenet/calibration/verifier_grid.py:144-164 | which threshold wins a tie, at the floor and in the fallback, in both grids |
| RoundedPicks.RoundedFloorExactlyWhen | eyenet/calibration/simhash_grid.py:259-290 | which counts reach a floor of k ten-thousandths after rounding |
| RoundedPicks.RecallOrdersHits | eyenet/calibration/simhash_grid.py:259-290 | with fewer than 10000 positives rounded recall orders rows as their hits do |
| RoundedPicks.PrecisionOrders | eyenet/calibration/simhash_grid.py:259-290 | with at most 100 pairs rounded precision orders rows as exact precision does |
| RoundedPicks.PickIsUnrounded | eyenet/calibration/simhash_grid.py:302-329 | when some stored row meets the floor, for a floor in tenths and fewer than 2000 pairs the picked row is the one exact arithmetic picks |
| RoundedPicks.ScorePickIsUnrounded | eyenet/calibration/verifier_grid.py:144-164 | the same for the score grid |
| RoundedPicks.FallbackIsUnrounded | eyenet/calibration/simhash_grid.py:322-329 | with at most 100 pairs the fallback row is the one of most exact precision, the smallest threshold on ties |
| RoundedPicks.ScoreFallbackIsUnrounded | eyenet/calibration/verifier_grid.py:144-164 | the same for the score grid, the largest threshold on ties |
| RoundedPicks.RoundingAdmitsBelowFloor | eyenet/calibration/simhash_grid.py:302-329 | 2003 pairs on which threshold 0 is picked at floor 0.70 although no row meets it exactly |
| RoundedPicks.FallbackMissesMostPrecise | eyenet/calibration/simhash_grid.py:322-329 | 1900 pairs on which the fallback is threshold 0 although threshold 1 is more precise |
| OperatingPoints.MannWhitneyAucHigherBetter | eyenet/calibration/verifier_grid.py:79-94 | the mirrored loops compute the share of pairs won from above |
| OperatingPoints.AucsAreComplements | eyenet/calibration/verifier_grid.py:79-94 | on the same lists the two statistics add up to one |
| OperatingPoints.WinsComplement | eyenet/calibration/verifier_grid.py:79-94 | every pair is counted once between the two statistics |
| OperatingPoints.ScoreSweep | eyenet/calibration/verifier_grid.py:97-132 | round(1/step) + 1 rows with the counts at or above each rounded threshold |
| OperatingPoints.ScoreSweepLaws | eyenet/calibration/verifier_grid.py:97-132 | rows account for every pair; hits, alarms and recall never rise with the threshold |
| OperatingPoints.PickScoreFloor | eyenet/calibration/verifier_grid.py:144-164 | the same choice with the mirrored fallback tie-break |
| Recipes.Confusion | eyenet/calibration/recipes_grid.py:105-127 | the four counters are the four cells and add up to the labelled actors |
| Recipes.CellIsCount | eyenet/calibration/recipes_grid.py:105-127 | a cell is the number of labelled actors with that label and that prediction |
| Recipes.HitsAndMisses | eyenet/calibration/recipes_grid.py:105-127 | hits and misses together are the actors with the label |
| Recipes.Sweep | eyenet/calibration/recipes_grid.py:297-307 | what the loop keeps meets the floor and is not beaten by any candidate; every earlier candidate at the floor is strictly worse |
| Recipes.PopulateMetrics | eyenet/calibration/recipes_grid.py:348-370 | the reported cells and ratios are those of the recipe's own matcher |
| Recipes.ReportedCounts | eyenet/calibration/recipes_grid.py:98-99 | the matcher built from the chosen threshold counts what the sweep counted |
| Recipes.GroupIsPattern | eyenet/calibration/recipes_grid.py:42-77 | evaluating a pattern's axes is the pattern |
| Recipes.ChattyMatches | eyenet/calibration/recipes_grid.py:289-345 | the chatty-member recipe matches exactly the actors with that many messages or more |
| RecipeOptimality.SearchChattyMember | eyenet/calibration/recipes_grid.py:289-345 | the reported counts are those of a candidate threshold, the smallest of those that do as well, the ratios those of the counts, and no real threshold does better except in the case named |
| RecipeOptimality.ChattyIsOptimal | eyenet/calibration/recipes_grid.py:297-307 | for a positive floor no real threshold at the floor has more hits, or as many with fewer alarms |
| RecipeOptimality.ChattyOptimalExactlyWhen | eyenet/calibration/recipes_grid.py:297-307 | for any floor, exactly when that holds |
| RecipeOptimality.ZeroFloorMissesBetter | eyenet/calibration/recipes_grid.py:297-307 | one labelled actor, floor 0, for whom an untried threshold is better |
| LurkerRecipe.SearchLurkerOrObserver | eyenet/calibration/recipes_grid.py:160-243 | two independent sweeps, each keeping the first of its best thresholds, the surviving patterns joined by OR, the joined counts and their rounded ratios reported |
| LurkerRecipe.LurkerMatches | eyenet/calibration/recipes_grid.py:203-243 | the lurker recipe matches by initiation rate, or by daily rate and a span of at least seven days, as far as the patterns survived |
| LurkerRecipe.ReportedBound | eyenet/calibration/recipes_grid.py:160-243 | nothing reported when no pattern survives; precision at least the floor when one does, at least floor / (2 - floor) when both do, and rounded precision at least that bound rounded |
| LurkerRecipe.RoundedUnderBound | eyenet/calibration/recipes_grid.py:150-154 | the rounded precision itself can be under floor / (2 - floor): one hit and two alarms at floor one half |
| LurkerRecipe.MergedPrecisionBound | eyenet/calibration/recipes_grid.py:160-243 | the joined recipe loses no hit of either pattern and keeps that bound |
| LurkerRecipe.MergedFloorBySlack | eyenet/calibration/recipes_grid.py:160-243 | how the overlap of the two kept patterns decides the joined precision: the accounting the conditions below rest on |
| LurkerRecipe.HitsOfEither | eyenet/calibration/recipes_grid.py:105-127 | inclusion and exclusion for confusion cells |
| Cohorts.InitRateIsShare | eyenet/calibration/interaction.py:108-161 | an initiation rate the statistics produce is at most 1 |
| LurkerClaims.KeptCovers | eyenet/calibration/recipes_grid.py:173-200 | a sweep keeps every lurker that any grid threshold at the floor matches |
| LurkerClaims.GridsAsWritten | eyenet/calibration/recipes_grid.py:173-200 | the candidate thresholds of both patterns |
| LurkerClaims.RecallOverEligiblePairs | eyenet/calibration/recipes_grid.py:160-243 | the search hits at least as many lurkers as any pair of grid thresholds that each meet the floor |
| LurkerClaims.UnsharedMeetsFloor | eyenet/calibration/recipes_grid.py:10-12 | with no labelled lurker within reach of both patterns the joined recipe meets every floor |
| LurkerFloors.AtFloorExactlyWhen | eyenet/calibration/recipes_grid.py:150-154 | which alarms leave a precision at the floor for given hits |
| LurkerFloors.MeetsFloorAtExactlyWhen | eyenet/calibration/recipes_grid.py:10-12 | for given lurkers and any floor, the joined recipe meets that floor in every cohort exactly when at every grid pair below initiation rate 1 the alarms each pattern may have add up to no more than the pair may have |
| LurkerFloors.MostRecallAtExactlyWhen | eyenet/calibration/recipes_grid.py:10-12 | for given lurkers and any floor, no pair at that floor hits more than the search, in every cohort, exactly when at every such pair each pattern may have as many alarms as the pair or the other matches as many lurkers |
| LurkerFloors.ShippedFloorExactlyWhen | eyenet/calibration/recipes_grid.py:160-165 | the floor condition at 0.70, in sevenths of the counts |
| LurkerFloors.ScreenedExactlyWhen | eyenet/calibration/recipes_grid.py:173-200 | which thresholds meet the floor in the cohorts that show the conditions are needed |
| LurkerFloors.MeetsFloorExactlyWhen | eyenet/calibration/recipes_grid.py:10-12 | for given lurkers the joined recipe meets the floor in every cohort and at every floor exactly when none is within reach of both patterns |
| LurkerFloors.MostRecallExactlyWhen | eyenet/calibration/recipes_grid.py:10-12 | for given lurkers no pair at the floor hits more than the search, in every cohort and at every floor, exactly when the two patterns' reaches are nested among them |
| LurkerCohorts.JoinedMissesShippedFloor | eyenet/calibration/recipes_grid.py:10-12 | thirteen producible actors on whom the search at 0.70 reports seven hits and six alarms |
| LurkerCohorts.SearchMissesRecall | eyenet/calibration/recipes_grid.py:10-12 | fifteen producible actors on whom the search at 0.70 reports seven hits while a pair at the floor has ten |
| LurkerCohorts.SevenCanOccur | eyenet/calibration/recipes_grid.py:10-12 | the first of these cohorts consists of rows the statistics produce |
| LurkerCohorts.TenCanOccur | eyenet/calibration/recipes_grid.py:10-12 | so does the second |
| Subjects.SubjectMatches | eyenet/bus/subjects.py:18-35 | the index loop is the token walk |
| Subjects.MatchesExactlyExpansions | eyenet/bus/subjects.py:3-5 | a valid pattern matches exactly the subjects that arise by replacing each star with one token and a final `>` with one or more |
| Subjects.CheckPattern | eyenet/bus/subjects.py:38-49 | valid means no empty token and `>` only at the end |
| Subjects.JoinOfSplit | eyenet/bus/subjects.py:14-15 | the tokens joined with dots are the text |
| Subjects.TokensHoldNoDot | eyenet/bus/subjects.py:14-15 | and no token holds a dot |
| Subjects.WalksByPosition | eyenet/bus/subjects.py:18-35 | a match position by position: as many tokens, or at least as many under a final `>`, the rest stars or equal |
| MemoryBus.Bus.Publish | eyenet/bus/memory.py:66-76 | reaches exactly the targets: every live broadcast match and each group's chosen member, each once; moves only the pointers of served groups |
| MemoryBus.Bus.Subscribe | eyenet/bus/memory.py:78-89 | appends the subscription exactly when the pattern is valid |
| MemoryBus.Bus.Unsubscribe | eyenet/bus/memory.py:50-52 | marks the subscription and takes it off the list |
| MemoryBus.Bus.Close | eyenet/bus/memory.py:117-120 | no subscription and no pointer is left |
| MemoryBus.Bus.PickRoundRobin | eyenet/bus/memory.py:157-164 | the member at the pointer in sid order, and the pointer afterwards |
| MemoryBus.Classify | eyenet/bus/memory.py:134-144 | broadcast matches and groups hold exactly their live matching members in order |
| MemoryBus.CancelledNeverReached | eyenet/bus/memory.py:137-139 | a subscription cancelled before a publish is not among its targets |
| MemoryBus.TargetsMatch | eyenet/bus/memory.py:137-142 | a target's pattern yields the subject, and without a queue group every live subscription whose pattern does is a target |
| MemoryBus.OneTargetPerGroup | eyenet/bus/memory.py:147-151 | a group with a live match has exactly one target, itself a live match |
| MemoryBus.RoundRobinIsFair | eyenet/bus/memory.py:157-164 | over n picks from k each index gets n/k rounded down or up, whatever the pointer was |
| GroupFairness.EveryMemberGetsItsShare | eyenet/bus/memory.py:147-164 | of n consecutive publishes every live member of a group of k receives n/k rounded down or up |
| GroupFairness.FirstDelivery | eyenet/bus/memory.py:157-164 | a group never served starts with its live member of least sid |
| GroupFairness.NextDelivery | eyenet/bus/memory.py:157-164 | after a member comes the one with the next greater sid, and after the last the first |
| GroupFairness.PublishRun | eyenet/bus/memory.py:66-164 | n publishes on a bus nobody joins or leaves reach each live member of a group of k n/k times, rounded down or up |
| ProfileEngine.Engine.UpdateProfile | eyenet/engine/engine.py:131-184 | one call is one step of the fold for its actor and touches no other actor |
| ProfileEngine.StoredExactlyWhen | eyenet/engine/engine.py:277-300 | an update is stored exactly for a first profile, a changed role or a changed value of the touched slot |
| ProfileEngine.ProposalVisible | eyenet/engine/engine.py:162-184 | stored or skipped, the profile shows the proposed role and every proposed slot value; the confidence is the older one exactly when the update was skipped |
| ProfileEngine.VerdictDecides | eyenet/engine/engine.py:155-184 | the recipes' verdict decides the role, of a first profile too, and the confidence of every stored update |
| ProfileEngine.SlotWritten | eyenet/engine/engine.py:226-274 | a stored update writes value, details and count to its slot, leaves the others and takes the next version |
| ProfileEngine.StoredIsLastObserved | eyenet/engine/engine.py:131-184 | after any run the stored profile shows the last observed value of every slot, although updates were skipped |
| ProfileEngine.SlotsStay | eyenet/engine/engine.py:226-274 | a stored slot never disappears |
| ProfileEngine.VersionCountsStores | eyenet/engine/engine.py:236-257 | version and observation count are both the number of stored updates |
| ProfileEngine.SlotCountsBounded | eyenet/engine/engine.py:259-262 | no slot's count exceeds the profile's |
| ProfileEngine.SkippedExactlyWhen | eyenet/engine/engine.py:167-184 | an update is skipped exactly when a profile exists, the value is the last observed for its slot and the verdict leaves the role |
| ProfileEngine.CountFallsShort | eyenet/engine/engine.py:167-184 | the count falls short of the mapped observations exactly when one repeats the last value of its slot and the verdict leaves the role |
| IncidentBuffer.RunKeepsInv | eyenet/incidents/service.py:91-122 | in every interleaving nothing is lost or taken twice, each batch is what its flush took without repeats, and a full buffer has a flush on its way |
| IncidentBuffer.BatchOrder | eyenet/incidents/service.py:121 | a batch is in strict order of first arrival |
| IncidentBuffer.TickLeavesNothing | eyenet/incidents/service.py:105-109 | after a tick every ref accepted before it is in some batch |
| IncidentBuffer.Service.Accept | eyenet/incidents/service.py:97-99 | the handler's critical section is the arrival step |
| IncidentBuffer.Service.Flush | eyenet/incidents/service.py:117-122 | the flush's critical section is the flush step and returns the batch |
| IncidentBuffer.Dedup | eyenet/incidents/service.py:121 | dict.fromkeys keeps first arrivals |
| Backfill.RunBackfill | eyenet/incidents/backfill.py:28-79 | ends; the messages classified are, in order and each once, the first of those unclassified at the start, up to the limit; counts them and appends an incident for exactly those that fire |
| Backfill.ScanPage | eyenet/incidents/backfill.py:45-76 | one page classifies exactly the next stretch of messages and moves cursor, incidents and count past it |
| Backfill.QueryYieldsRest | eyenet/storage/sqlmodel_repo/incidents.py:284-298 | whatever has been classified, the query past the cursor yields exactly the messages not yet scanned |
| Backfill.PendingAscends | eyenet/storage/sqlmodel_repo/incidents.py:284-298 | the query yields messages in strictly ascending id order |
| Backfill.PageAdvances | eyenet/incidents/backfill.py:41-50 | a page moves cursor, incidents and count to the end of that page |
| Backfill.RerunAddsNothing | eyenet/incidents/backfill.py:28-79 | after a full run what is unclassified is exactly what does not fire, so a second run adds nothing |
| Base64.ScanOfEncode | eyenet/api/deps_paging.py:31-46 | decoding a base64url encoding gives the bytes back |
| Base64.UnknownSkipped | eyenet/api/deps_paging.py:46 | a character outside the alphabet never changes the decoded bytes |
| Base64.CanonicalExactlyWhen | eyenet/api/deps_paging.py:31-46 | a string is canonical (whole groups of URL-safe characters, padding only at the end, spare bits zero) exactly when it decodes and encoding the result gives it back |
| Base64.AlphabetInOrder | eyenet/api/deps_paging.py:31-33 | the URL-safe alphabet of RFC 4648 in its order |
| Base64.GroupSpells | eyenet/api/deps_paging.py:31-33 | four characters spell three bytes, most significant bits first |
| Base64.TailSpells | eyenet/api/deps_paging.py:31-33 | a short last group is filled with zero bits and padded |
| Paging.DecodeOfEncode | eyenet/api/deps_paging.py:31-54 | decode_cursor undoes encode_cursor for every natural number |
| Paging.SevenWritten | eyenet/api/deps_paging.py:31-33 | the cursor of offset 7 is Nw== |
| Paging.OwnCursorExactlyWhen | eyenet/api/deps_paging.py:36-54 | an accepted cursor is the one encode_cursor writes for its offset exactly when it is canonical base64url of digits without a needless zero |
| Paging.StrayCharacterAccepted | eyenet/api/deps_paging.py:36-54 | an unknown ASCII character in front of a cursor changes nothing |
| Paging.MalformedCursorAccepted | eyenet/api/deps_paging.py:39-40 | a malformed cursor that is not a 422 |
| Paging.PagesConcatenateToList | eyenet/api/deps_paging.py:69-82 | following next_cursor from the start ends, and the pages concatenate to the whole list |
| Paging.WalkFrom | eyenet/api/v1/groups/api_list_groups.py:62-79 | the same from any cursor that decodes, past the end included, and every page but the last is full |
| Paging.NextPage | eyenet/api/deps_paging.py:74-82 | there is a next cursor exactly when rows remain, and it decodes to the next offset |

## Left out

- Frames.CanonicalInjective: UUIDs and signatures are byte strings of any length, and text is a sequence of Unicode scalar values, so the error that lone surrogates raise is not modelled.
- AuditChain.PinnedHead: for the audit log a row's content stands for the canonical JSON of its other fields; that this JSON determines the fields is not modelled. Hashes are any functions.
- JournalChain.JournalHeadPins: rows are values; the query that reads them in insert order, the checks before a row is appended and the lock around it are left out.
- KeyLoading.LoadsExactlySafeKeys: the backend's own check is an arbitrary predicate on the bytes.
- SmallOrder.SmallOrderIsEightTimes: eight times the point is three doublings with the curve's addition law; that the law is associative is not proved.
- Crews.BuildCrews: aggregates are values, not objects the loop updates in place.
- InfraLinker.ProposeInfraEdges: the logarithm is any function that is at least 0 from 1 on, and for what weights and scores mean any increasing one that turns products into sums; edges of equal score may stand in any order, as they do in the source, which iterates over a set.
- Calibration.ThresholdSweep: ratios are exact reals, so floating-point rounding is not modelled; the same holds for every precision, recall, f1, AUC and score here.
- Recipes.Confusion: the feature value is a number, so the branch for a non-numeric attribute and the error for an unknown operator are not modelled; the notes and strategy texts are left out.
- LurkerFloors.MostRecallAtExactlyWhen: the conditions are on the lurkers, over all other actors; no condition is given for one fixed cohort short of running the sweeps. The same holds for LurkerFloors.MeetsFloorAtExactlyWhen.
- Cohorts.InitRateIsShare: of the statistics only the five fields that recipes read are modelled; the spread of message lengths is any number of at least 0.
- ProfileEngine.Engine.UpdateProfile: sequential calls per actor; the read-modify-write race between tasks, event emission, identifiers and timestamps are left out. The six summary dictionaries are one map keyed by block and slot, and the recipes are an arbitrary function.
- ProfileEngine.StoredExactlyWhen: a slot value is a text and two values are the same when their texts are; Python's inequality also sees a NaN as different from itself, and 1, 1.0 and True as equal.
- MemoryBus.Bus.Publish: handlers, their exceptions, headers and request/reply are left out; the order in which targets run is not stated. The cancelled flag is a set of sids in the bus, and a fresh sid is a precondition of subscribing.
- IncidentBuffer.RunKeepsInv: what happens to a batch after the lock is released (lookup, inference, failures, publishing) and the refresh of rules are left out.
- Backfill.RunBackfill: what fires is an arbitrary function of the message; no message arrives and no other writer classifies during the run; attachments, labels and scores are left out.
- Paging.DecodeOfEncode: CPython's limit of 4300 digits on integer conversion and the 4096-character limit on the query parameter are not modelled.
- Paging.PagesConcatenateToList: the list does not change between requests.
- The two maximum-F1 pickers and the fixed bot recipe are left out: they would only add easy members.
- fingerprint, verify_signature, key files, Fernet, SHA-256 and DER encoding are not part of this model.
- Storage, SQL, NATS, HTTP handlers, collectors, the command line, tracing and model inference are not part of this model.
