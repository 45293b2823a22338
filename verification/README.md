# Verified model of the credential server

The server keeps one Merkle tree of leaf commitments per issuer, publishes its root, and
makes Groth16 proofs that a holder's secret belongs to the tree. This project models that
pipeline and the handlers around it in Dafny and proves what they guarantee.

`dafny verify dfyconfig.toml` checks the whole project.

## How the files follow the program

| file | what it models |
|---|---|
| `NumberTheory.dfy`, `Field.dfy` | modular arithmetic up to Fermat's little theorem; the BN254 scalar field |
| `Mimc.dfy`, `Xorshift.dfy` | the MiMC permutation and hash, its inverse; the round-constant generator |
| `R1cs.dfy`, `Circuit.dfy` | the constraint builder with its five primitives; the membership circuit |
| `HashTree.dfy`, `Merkle.dfy` | hash trees over any two-input hash; the padded tree with its loops |
| `Membership.dfy` | commitment, nullifier, address binding, proof generation, extraction |
| `Curves.dfy`, `Hex.dfy`, `Encoding.dfy`, `KeyDigest.dfy` | curve points, hexadecimal, field and point layouts, the verifying-key digest and its pin |
| `Storage.dfy` | the tables, the statements, and the store that updates them in place |
| `Protocol.dfy`, `Invariant.dfy`, `Guarantees.dfy` | add, publish and prove as a concurrent system, its invariant, its guarantees over whole runs |
| `Serial.dfy`, `Handlers.dfy` | serial runs as a ledger; the handlers statement by statement |
| `Staleness.dfy` | when a proof request notices that the tree has changed since the last publish |
| `Permits.dfy` | the permits that meter proof requests |

Circuit and tree are proved for every depth and every list of round constants; the deployed
values are `DEPTH` = 4, `ROUNDS` = 91 and `ROUND_CONSTANTS`. The protocol is proved for every
two-input hash and the deployed depth.

Hypotheses are never hidden in definitions. That the scalar order `R` is prime is a `requires`
of the few lemmas that need it (booleanness of the position bits, invertibility of the fifth
power). Collision resistance of MiMC or of SHA-256 is never assumed: where a statement would
need it, it offers the two colliding inputs instead. SHA-256 and the proof system are function
parameters; the only thing ever supposed of the proof system, and only where it is written, is
that values satisfying the circuit lead to a proof that is accepted.

## The concurrent model

A state holds the committed tables and every handler with what it has in memory. An event is
the arrival of a request, the next statement of one handler, or a fault: the statement fails,
takes effect but loses its acknowledgement, or the client goes away before or after the
statement in flight takes effect. A count or a selection sees committed rows only. An insertion fails on a committed row with its key and waits for an
uncommitted one. Runs are arbitrary finite lists of events, so every interleaving is covered.
Two history values record the leaves from which a published root was computed and those behind
the root that a proof request was checked against; no step reads them.

## Where code and documentation differ

* `src/api/holder.rs:63-65` says that a proof is refused when the tree has changed since the
  last publish. The code compares the published root with the root of the leaves it has read
  before, and empty slots hold 0. So two kinds of change go unnoticed, each shown by a run:
  appending commitments equal to 0 (`Staleness.ChangeGoesUnnoticed`), and appending any
  commitment between the read and the check (`Staleness.LateAppendGoesUnnoticed`).
  `Staleness.StaleCheck` is the exact condition at any moment of any run: of the leaves read and
  the leaves behind the published root one list goes on from the other, and the request is
  refused only if the longer has a leaf other than 0 beyond the shorter, and then always, up to
  a collision.
  For a request that nobody interrupts, after any run with any overlap and faults, this is
  `Staleness.StaleTreeRefused`: exactly when a leaf other than 0 has been appended.
* `src/api/mod.rs:97-98` says that the permit bounds the number of proofs running. A dropped
  handler gives its permit back while its blocking task goes on as an orphan, so any number can
  run: `Permits.CapacityCanBeExceeded`. `Permits.WithinCapacity` says exactly when the bound
  holds, and `Permits.SafeIffNoOrphans` when it is safe: every continuation without further
  drops keeps it if and only if no task is orphaned.
* `src/api/mod.rs:156-157` describes scalars as lower-case hexadecimal. Any case is accepted,
  and so are numbers not below the order, which are reduced: `Encoding.ParseFrHexAccepts`, with the inputs of
  `Encoding.UpperCaseIsAccepted` and `Encoding.OrderIsReadAsZero`.
* `src/crypto/encoding.rs:69-70` counts three `ic` entries. The circuit has three inputs, so
  there are four; `KeyDigest.PreimageInjective` holds for any number.

## Model

| member | source | states |
|---|---|---|
| `Mimc.Mimc` | src/crypto/mimc.rs:43-52 | the round loop computes the keyed permutation `Permute` |
| `Mimc.RoundFormula` | src/crypto/mimc.rs:45-50 | one round is the fifth power of input, key and constant together: its fifth root is their sum modulo the order |
| `Mimc.RoundsInOrder` | src/crypto/mimc.rs:45-50 | the constants are used from the first to the last |
| `Mimc.HashFormula` | src/crypto/mimc.rs:43-57 | the hash is the last round plus the first input plus twice the second, modulo the order |
| `Mimc.PermuteIsPermutation` | src/crypto/mimc.rs:43-52 | under every key and constants list the permutation has an explicit two-sided inverse that runs the rounds backwards, given that R is prime |
| `Mimc.HashUndone` | src/crypto/mimc.rs:54-57 | the second input is the key: removing the feed-forward and undoing the permutation recovers the first input |
| `Mimc.RoundConstants` | src/crypto/mimc.rs:29-41 | the xor-shift loop yields the round constants |
| `Mimc.ConstantsFollow` | src/crypto/mimc.rs:34-38 | for any seed and number: the first constant is one generator step after the seed, each further one a step after the one before, and nothing is lost between word and scalar |
| `Mimc.DeployedConstants` | src/crypto/mimc.rs:31-34 | there are 91, and undoing one step from the first gives the literal seed |
| `Xorshift.NextStateFormula` | src/crypto/mimc.rs:35-37 | a generator step xors with the shifts left by 13, right by 7 and left by 17, in this order |
| `Xorshift.NextStateIsPermutation` | src/crypto/mimc.rs:35-37 | one step of three xor-shifts is a bijection of the 128-bit words, with explicit inverse |
| `Mimc.ConstantsRepeatOnlyWithSeed` | src/crypto/mimc.rs:31-41 | from any nonzero seed no constant of any list is zero, and two are equal only if the generator has returned to its seed |
| `R1cs.ProductMeaning` | src/crypto/mimc.rs:68-70 | the emitted constraint of a product holds exactly when the new wire is the product |
| `R1cs.BooleanMeaning` | src/crypto/circuit.rs:94-99 | the constraint of a boolean witness holds exactly for 0 and 1 |
| `R1cs.SelectMeaning` | src/crypto/circuit.rs:101-102 | the constraint of a selection by a boolean holds exactly when the wire is the chosen side |
| `R1cs.EqualMeaning` | src/crypto/circuit.rs:105-109 | the constraint of enforce_equal holds exactly for equal values |
| `R1cs.ConstraintSystem.NewInput` | src/crypto/circuit.rs:65-77 | a new input takes the next number, records its value in proving mode only, and fails exactly when proving without a value |
| `R1cs.ConstraintSystem.NewWitness` | src/crypto/circuit.rs:79-81 | the same for a witness |
| `R1cs.ConstraintSystem.NewBoolean` | src/crypto/circuit.rs:94-99 | a boolean witness with its constraint |
| `R1cs.ConstraintSystem.Product` | src/crypto/mimc.rs:68-70 | a new wire constrained to, and in proving mode assigned, the product |
| `R1cs.ConstraintSystem.Select` | src/crypto/circuit.rs:101-102 | a new wire constrained to, and in proving mode assigned, the chosen side |
| `R1cs.ConstraintSystem.EnforceEqual` | src/crypto/circuit.rs:105-109 | one constraint more, no wire more |
| `Circuit.HashMeaning` | src/crypto/mimc.rs:59-83 | the hash gadget's constraints hold exactly when its wires are the native intermediate values, and then its output is the native hash |
| `Circuit.PathMeaning` | src/crypto/circuit.rs:87-104 | the constraints of the path loop hold exactly when every wire but the free siblings and bits is honest; the result is the fold along that path |
| `Circuit.CircuitMeaning` | src/crypto/circuit.rs:64-112 | for every depth and constants: an assignment satisfies the circuit if and only if the opening in its wires opens its claim and all other wires are honest |
| `Circuit.CircuitSoundness` | src/crypto/circuit.rs:64-112 | any satisfying assignment has boolean position bits and contains a secret and path that fold to its root and hash to its nullifier |
| `Circuit.HonestAssignment` | src/crypto/circuit.rs:64-112 | the honestly computed wires of an opening satisfy the circuit if and only if it opens the claim |
| `Circuit.OpeningRoundTrip` | src/crypto/circuit.rs:79-99 | secret, siblings and bits are read back unchanged from honest wires |
| `Circuit.AddressIsFree` | src/crypto/circuit.rs:71-78 | the address is tied to nothing but its own square: it can be exchanged in any satisfying assignment |
| `Circuit.OneNullifierPerSecret` | src/crypto/circuit.rs:107-109 | satisfying assignments with the same secret have the same nullifier, across trees, depths and addresses |
| `Circuit.CircuitSize` | src/crypto/circuit.rs:64-112 | number of constraints and of wires as closed formulas in depth and rounds |
| `Circuit.DeployedCircuitSize` | src/crypto/circuit.rs:27-30 | the deployed circuit has 1653 constraints and 1656 witness variables |
| `Circuit.MimcGadget` | src/crypto/mimc.rs:59-73 | the gadget's loop emits exactly the specified constraints and wires |
| `Circuit.Hash2Gadget` | src/crypto/mimc.rs:75-83 | the same for the hash gadget, whose value in proving mode is the native hash |
| `Circuit.PathGadget` | src/crypto/circuit.rs:87-104 | the loop over the levels emits the path constraints and honest wires, and fails exactly at the first missing or short vector |
| `Circuit.PathFailureFree` | src/crypto/circuit.rs:88-99 | no index is out of range exactly when both vectors are present and at least depth long |
| `Circuit.GenerateConstraints` | src/crypto/circuit.rs:64-112 | setup and proving emit the same constraints, a function of constants and depth alone, inputs in the order root, nullifier, address; all failures are characterised |
| `HashTree.RootOfNextLevel` | src/merkle.rs:86-96 | hashing a layer pairwise keeps the root of the recursive tree, for every power-of-two layer |
| `HashTree.FoldOfSiblings` | src/merkle.rs:98-122 | for every depth, layer and index, folding the leaf along its siblings gives the root |
| `HashTree.DigitAt` | src/merkle.rs:106-117 | bit i of a path is the binary digit of the index at 2^i |
| `HashTree.DigitsRoundTrip` | src/merkle.rs:106-117 | the bits of a path are the binary digits of the index |
| `HashTree.PathBinds` | src/merkle.rs:98-122 | a path that folds to the root is the tree's own path, sibling for sibling and bit for bit, to the leaf in the slot its bits spell, or a collision is computed |
| `HashTree.RootBinds` | src/merkle.rs:85-96 | equal roots mean equal layers, or a collision is computed |
| `Merkle.MerkleTree.FromLeaves` | src/merkle.rs:45-55 | fails exactly on more leaves than slots, and keeps the leaves in order otherwise |
| `Merkle.MerkleTree.Push` | src/merkle.rs:69-76 | appends and returns the index, or refuses and leaves a full tree alone |
| `Merkle.HashPairs` | src/merkle.rs:89-93 | the inner loop hashes adjacent pairs and never misses a partner |
| `Merkle.MerkleTree.Root` | src/merkle.rs:85-96 | the halving loop computes the root of the recursive tree over the padded leaves |
| `Merkle.MerkleTree.Witness` | src/merkle.rs:98-122 | a witness exists exactly for positions in use; it has one sibling and bit per level, its bits spell the index, and it folds the leaf to the root |
| `Merkle.PaddedEqual` | src/merkle.rs:78-83 | padding hides trailing empty leaves and nothing else |
| `Merkle.GrownTreeRoot` | src/merkle.rs:22-26 | a grown tree keeps its root exactly when only empty leaves were appended, or a collision is computed |
| `Merkle.PathLeadsToLeaf` | src/merkle.rs:78-96 | a path folding to a tree's root leads to the leaf in its slot, or to an empty slot from the empty leaf, and is the tree's own path to that slot, or a collision is computed |
| `Membership.SetupCircuit` | src/crypto/mod.rs:118-123 | synthesis without a witness cannot fail and gives the circuit that proving uses |
| `Membership.MemberIsProvable` | src/crypto/mod.rs:176-199 | for every member and address the handed-over assignment satisfies every constraint |
| `Membership.Prove` | src/crypto/mod.rs:163-215 | NotAMember exactly when the commitment is absent; otherwise synthesis succeeds, the proof system gets that assignment, and a proof is returned exactly when it verifies for [root, nullifier, address] |
| `Membership.DomainsSeparate` | src/crypto/mimc.rs:24-27 | a nullifier equals a commitment exactly when the two secrets under the second inputs 2 and 1 are a hash collision |
| `Membership.AddressFieldIsDigest` | src/crypto/mod.rs:146-153 | an address is bound to the big-endian number of its digest modulo the order |
| `Membership.AddressFieldEqual` | src/crypto/mod.rs:146-153 | two addresses are bound to the same element exactly when their digests agree modulo the order |
| `Membership.MembershipExtraction` | src/crypto/circuit.rs:84-109 | an assignment satisfying the circuit for a tree's root contains a secret whose commitment is in the slot of its bits (0 in an empty slot) and the tree's own path to that slot, or a collision is computed |
| `Membership.OneNullifierPerSlot` | src/crypto/mod.rs:133-144 | two satisfying assignments for one root and one slot have the same nullifier, or a collision is computed |
| `Hex.DecodeEncoded` | src/store.rs:36-42 | encoded bytes are decoded to themselves |
| `Hex.EncodeDecoded` | src/store.rs:36-42 | decoded text is encoded to its lower-case form |
| `Hex.DecodeSucceeds` | src/store.rs:40-42 | text is decoded exactly when it is an even number of hexadecimal digits |
| `Encoding.BigEndian` | src/crypto/encoding.rs:9-17 | the first byte of a word is the most significant |
| `Encoding.FrBe` | src/crypto/encoding.rs:36-41 | the filled buffer is the 32-byte big-endian word |
| `Encoding.FrRoundTrip` | src/crypto/encoding.rs:29-41 | every scalar survives the trip through bytes |
| `Encoding.WordRoundTrip` | src/crypto/encoding.rs:29-34 | a word survives the trip through a scalar exactly when its number is below the order |
| `Encoding.SameScalar` | src/crypto/encoding.rs:29-34 | two words parse alike exactly when they differ by a multiple of the order |
| `Encoding.HexBigEndian` | src/store.rs:36-38 | the first digit of a hexadecimal text is the most significant |
| `Encoding.ToHexIsNumeral` | src/store.rs:36-38 | a scalar is written as its 64-digit base-16 numeral |
| `Encoding.ParseFrHexAccepts` | src/api/mod.rs:156-164 | accepted are exactly 64 hexadecimal digits of either case, read as a numeral and reduced; which error otherwise; stable text is exactly the lower-case canonical one |
| `Encoding.UpperCaseIsAccepted` | src/api/mod.rs:156-164 | an upper-case text that is accepted and that the server would not write |
| `Encoding.OrderIsReadAsZero` | src/api/mod.rs:156-164 | the numeral of the order is accepted and read as 0 |
| `Encoding.G1Bytes` | src/crypto/encoding.rs:43-52 | the buffer filled slice by slice is the 64-byte layout |
| `Encoding.G2Bytes` | src/crypto/encoding.rs:54-66 | the buffer filled slice by slice is the 128-byte layout |
| `Encoding.G1LayoutFields` | src/crypto/encoding.rs:43-52 | the halves of a finite point's bytes are the numbers x and y |
| `Encoding.G2LayoutFields` | src/crypto/encoding.rs:54-66 | the quarters of a finite point's bytes are the numbers x.c1, x.c0, y.c1, y.c0 |
| `Encoding.G1ZeroIsInfinity` | src/crypto/encoding.rs:43-52 | all-zero bytes mean infinity and nothing else exactly for points other than the finite (0, 0), and so for every point of the curve |
| `Encoding.G2ZeroIsInfinity` | src/crypto/encoding.rs:54-66 | the same on the twist |
| `Curves.CurveOrders` | src/crypto/encoding.rs:19-20 | both field orders are those of the Barreto-Naehrig curve with the parameter of BN254 |
| `Curves.GeneratorsOnCurves` | src/crypto/encoding.rs:43-66 | the equations hold of the generators of both groups |
| `Encoding.CurveIsProperG1` | src/crypto/encoding.rs:43-52 | (0, 0) is off the curve |
| `Encoding.G1LayoutInjective` | src/crypto/encoding.rs:43-52 | two points other than the finite (0, 0) have the same bytes exactly when they are the same point |
| `Encoding.G2LayoutInjective` | src/crypto/encoding.rs:54-66 | the same on the twist |
| `KeyDigest.VkDigest` | src/crypto/mod.rs:66-84 | the hasher is fed exactly the encoded key |
| `KeyDigest.PreimageInjective` | src/crypto/mod.rs:73-84 | the hashed bytes determine every field and the number of ic entries |
| `Encoding.CurveIsProperG2` | src/crypto/encoding.rs:54-66 | (0, 0) is off the twist |
| `KeyDigest.CurveKeysAreProper` | src/crypto/encoding.rs:88-98 | a key whose points are on the curves contains no finite (0, 0) |
| `KeyDigest.PreimageFields` | src/crypto/mod.rs:73-84 | where each field and each ic entry stands in the hashed bytes |
| `KeyDigest.KeyFields` | src/crypto/encoding.rs:88-98 | where each point of a key stands in the bytes that are hashed for it |
| `KeyDigest.EncodingInjective` | src/crypto/encoding.rs:88-98 | two keys without the finite (0, 0) have the same encoding exactly when all their points are the same |
| `KeyDigest.VerifyDigest` | src/keysource.rs:103-116 | accepted exactly when the pin decodes to the digest; BadDigest exactly for other than 64 hexadecimal digits; what a mismatch reports |
| `KeyDigest.PinIdentifiesKey` | src/keysource.rs:103-116 | for such keys, a second key passes the same pin exactly when it is the same key or its hashed bytes are a SHA-256 collision with the first's |
| `KeyDigest.PinSpelling` | src/keysource.rs:105-109 | only a change of case leaves a pin the same |
| `Storage.StoredIsParsed` | src/store.rs:40-44 | stored text is read like a client's text, with BadHex for everything that does not parse |
| `Storage.StoredRoundTrip` | src/store.rs:36-44 | a stored scalar is read back as itself |
| `Storage.SelectDense` | src/store.rs:99-108 | reading a dense table in order of position gives its commitments, and no parse fails |
| `Storage.AppendLeaf` | src/store.rs:81-97 | inserting at the count appends to the list and leaves other issuers alone |
| `Storage.Store.EnsureIssuer` | src/store.rs:63-69 | adds a missing issuer without a root, and keeps a present one as it is |
| `Storage.Store.AddLeaf` | src/store.rs:71-97 | result and new tables in every case; on a dense table the list grows by exactly this commitment unless it is full |
| `Storage.Store.Leaves` | src/store.rs:99-108 | the commitments in order of position |
| `Storage.Store.SetPublishedRoot` | src/store.rs:110-119 | this issuer's root is the given one afterwards, all others are unchanged |
| `Storage.Store.PublishedRoot` | src/store.rs:148-159 | no row and NULL both read as none, the text of a scalar reads as that scalar, and only text that does not parse fails |
| `Storage.Store.RecordNullifier` | src/store.rs:161-172 | adds the row once; only an unknown issuer is refused |
| `Invariant.StepKeepsInv` | src/store.rs:73-119 | every statement, fault or departure of any handler keeps the invariant, whatever the others have done in between |
| `Invariant.ReachableInv` | src/store.rs:73-119 | every state of every run satisfies the invariant |
| `Invariant.RowCommitted` | src/store.rs:89-96 | a commit always succeeds in inserting and appends its commitment |
| `Invariant.ReadTreeOk` | src/api/issuer.rs:54-61 | with healthy tables publish and prove never meet unreadable text or a tree that is too full: they get exactly the issuer's leaves, or the error for no leaves |
| `Guarantees.RowsAreDense` | migrations/0001_init.sql:14-22 | in every run the positions are exactly 0 to n-1 with n at most the capacity, every row belongs to exactly one committed addition and holds its commitment, and reading never fails |
| `Guarantees.AddedForEver` | src/store.rs:71-97 | a client that is told a position finds its commitment there for ever, count is position + 1, and nobody else of the issuer is ever told that position |
| `Guarantees.WhyAddFails` | src/store.rs:81-95 | an addition is refused as full exactly when the tree is full, and its insertion fails exactly when another handler took the position after the count |
| `Guarantees.BlockedByOne` | src/store.rs:89-96 | in every run a waiting insertion waits for exactly one handler, which holds the position right behind the rows and whose own next statement commits and ends the wait |
| `Guarantees.FaultOutcomes` | src/api/holder.rs:88-99 | in every run, what a failed statement, a lost acknowledgement and a departure before or after the effect do to the database and to the reply of any unfinished handler; only a failed note of a nullifier is answered with the proof |
| `Guarantees.StatementOutcomes` | src/api/holder.rs:54-62 | in every run, when publish and prove answer with bad request and not found, and that they go on with the whole list otherwise; a proof is answered and its nullifier noted |
| `Guarantees.PublishReplied` | src/api/issuer.rs:54-66 | a publish that answers with a root has read its leaves as the whole list, and the root was the published one when it answered |
| `Guarantees.DomainsSeparate` | src/crypto/mod.rs:133-144 | for any hash of the protocol, a nullifier equals a commitment exactly when the two secrets under 2 and 1 collide |
| `Guarantees.PublishedRootIsOfPrefix` | src/api/issuer.rs:50-67 | in every run a published root is the root of some nonempty beginning of the current leaves, slow publishes included |
| `Guarantees.ProofAgreesWithPublish` | src/api/holder.rs:49-110 | every proof response: its leaves were the whole list when read, their root was the published one at the later check, it had been written by an event of a publish that had read the whole list and had been the published one ever since, and both lists fill the same padded layer or a collision is computed |
| `Guarantees.WrittenAt` | src/api/issuer.rs:50-67 | a published root was written by an event of a publish that had read the whole list before, and has been the published root from that write on |
| `Guarantees.NullifierHasLeaf` | src/api/holder.rs:88-99 | every recorded nullifier belongs to a secret whose commitment is among the issuer's leaves |
| `Guarantees.RepeatedProof` | src/store.rs:161-172 | once the nullifier of a secret is noted, by whichever request, no event of a request with that secret changes the database, faults and departures included |
| `Guarantees.NoMoreNullifiersThanLeaves` | migrations/0001_init.sql:28-33 | an issuer never has more recorded nullifiers than leaves, or a collision between two commitments is computed |
| `Serial.SerialRunIsLedger` | src/api/holder.rs:49-110 | without overlap, after any list of requests, the database and all replies are those of a simple ledger |
| `Staleness.StaleCheck` | src/api/holder.rs:56-78 | at any moment of any run, the check of a request that has read its leaves refuses only if, of those leaves and the ones behind the published root, the longer list has a leaf other than 0 beyond the shorter, and then it does or a collision is computed; without a published root it always refuses |
| `Staleness.StaleTreeRefused` | src/api/holder.rs:56-78 | after any run, faults and overlaps included, a request that nobody interrupts is refused for a changed tree only if some leaf beyond the published ones is not 0, and then it is or a collision is computed |
| `Staleness.SerialStaleTree` | src/api/holder.rs:56-78 | the same in serial runs, in terms of the ledger |
| `Staleness.ChangeGoesUnnoticed` | src/api/holder.rs:63-65 | for every hash and secret a run without overlap in which the tree has grown by 0 since the publish and a proof is given |
| `Staleness.LateAppendGoesUnnoticed` | src/api/holder.rs:63-65 | for every hash, secret and commitment a run in which that commitment is appended between read and check, and a proof is given |
| `Handlers.AddLeaf` | src/api/issuer.rs:24-33 | reply and tables are those of the protocol's handler when nobody interrupts it; on success the parsed commitment is appended at the returned position |
| `Handlers.Publish` | src/api/issuer.rs:50-67 | the same for publish, with the tree's own root loop; on success the reply is the root of the stored leaves, which is the published root afterwards |
| `Handlers.Prove` | src/api/holder.rs:48-110 | the same for prove, unless the proof system fails on a satisfied circuit; and where each field of the response comes from |
| `Permits.Gate.Admit` | src/api/mod.rs:91-114 | takes a permit without waiting, and refuses exactly when all are held; every method keeps the gate in the state of its logged run |
| `Permits.Gate.Finish` | src/api/mod.rs:97-99 | the response answers the request and gives the permit back |
| `Permits.Gate.Abandon` | src/api/holder.rs:86-93 | dropping the handler gives the permit back and stops no task |
| `Permits.PermitsConserved` | src/api/mod.rs:91-114 | in every run, drops included, free permits and holders make up the capacity |
| `Permits.RefusedOnArrival` | src/api/mod.rs:96-113 | in every run every request arrived at some event, and it is refused if and only if all permits were held at that moment |
| `Permits.RespondedIff` | src/api/mod.rs:97-99 | a request counts as answered if and only if the run contains its response while it held a permit and no task of it ran |
| `Permits.DroppedIff` | src/api/holder.rs:86-93 | a request counts as dropped if and only if its client went away while it held a permit |
| `Permits.RefusedIffSpent` | src/api/mod.rs:84-114 | a request is refused exactly when all permits are held |
| `Permits.RunningBounded` | src/api/holder.rs:86-93 | running proofs exceed the capacity at most by those whose handler was dropped |
| `Permits.WithinCapacity` | src/api/mod.rs:97-99 | in every run, running proofs are within the capacity exactly when orphans are no more than free permits and holders without a running proof |
| `Permits.SafeIffNoOrphans` | src/api/mod.rs:97-99 | after every run, all continuations without further drops stay within the capacity exactly when there is no orphan |
| `Permits.CapacityHolds` | src/api/mod.rs:97-99 | in runs without drops running proofs never exceed the capacity |
| `Permits.CapacityCanBeExceeded` | src/api/mod.rs:97-99 | with drops any number of proofs can run while all permits are free |

## Left out

- Groth16 itself (setup, proving, pairing check, knowledge soundness) and curve arithmetic: library code. Extraction is stated about assignments that satisfy the circuit, not about proofs that verify.
- The library's inlining of linear combinations when matrices are built: variables of the gadgets are linear combinations here, and only products, selections and booleans allocate wires.
- Internals of SHA-256 (section 6.2 of FIPS 180-4): a function parameter that hashes the concatenation of what it was fed.
- A proof that the scalar order is prime: it stays a hypothesis of the lemmas that need it.
- Machine width: tree indices are natural numbers and the bit operations on them are written as arithmetic; with at most 16 leaves no conversion of the count can wrap.
- Strings are sequences of characters; text outside ASCII is rejected by the same checks with the same kind of error.
- Failing connections in the class Store: its statements fail only for reasons of the data; other failures are events of Protocol.
- Interleaving inside Handlers: its methods run without interruption; interleavings are the subject of Protocol.
- Queueing inside the blocking pool: a task counts as running from the moment it is spawned.
- The bound of the permits read from the environment, its default and its parsing.
- HTTP routing, CORS, body limits, health and version, JSON, tracing, the texts of error messages: plumbing.
- Connection pooling, migrations, time stamps, cascading deletes (nothing ever deletes an issuer), listing and counting queries for display.
- Key files, key fetching and their serialisation, the development seed, the command-line tools.
