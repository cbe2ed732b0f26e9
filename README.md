# Zero-knowledge proof demonstrations: Schnorr identification and graph 3-colouring

This project models two small zero-knowledge demonstrations in Dafny and
proves properties of the models.

**Schnorr identification** (`schnorr/schnorr.py`). The public parameters are
a prime `q` and a prime `p = q*r + 1` with a small cofactor `r`, plus a value
`g` with `g^q == 1 (mod p)`. The key pair is a secret `x` in `[1, q-1]` and a
public key `y = g^x mod p`. Each protocol round runs as follows:

1. The prover commits to `f = g^s` for a nonce `s`.
2. The verifier sends a challenge `c`.
3. The prover answers `r = (s + c*x) mod q`.
4. The round passes when `g^r == f * y^c (mod p)`.

The run logs every round and then the number of rounds that passed.

**Graph 3-colouring** (`Traditional_ZKP_G3C/zkp_3-coloring-en.py`). A graph
is an adjacency dictionary and a colouring is a dictionary from vertex to
colour. The validity check scans every adjacency `u -> v` with `u < v` for a
colour clash. The simulation does two things:

- It builds the undirected edge set, adding `(u, v)` unless `(v, u)` is
  already present.
- It then runs challenge rounds. In each round, the verifier picks one edge
  and the prover opens both endpoints' colours. The simulation counts the
  messages (four per round) and the rounds where the two colours clash.

The fixed example data is:

- graph A, a 15-vertex grid;
- colouring A, a proper 3-colouring of graph A;
- graph B, which is graph A plus the edge 0-3, whose endpoints share a colour.

Modules:

- `Wrappers` (`wrappers.dfy`): the option and result types that both
  programs' operations return.
- `ModArith` (`modarith.dfy`): integer powers and Python's `pow(b, e, m)`.
  It also holds the exponent laws, exponent reduction modulo `q`, and the
  completeness identity `g^((s + c*x) mod q) == g^s * (g^x)^c (mod p)`.
- `Schnorr` (`schnorr.dfy`) has imperative methods for:
  - the safe-prime search (outer loop over random candidates, inner loop
    over cofactors `2..19`);
  - the generator scan;
  - key derivation and the module-level set-up;
  - the round loop with its pass counter and log.
- `Graphs` (`graphs.dfy`): insertion-ordered adjacency dictionaries,
  colourings, and the predicates that specify the check and the edge set.
- `EdgeCounting` (`edgecount.dfy`): for a simple graph, the edge set has half
  as many pairs as the neighbour lists have entries in total.
- `Coloring` (`coloring.dfy`): the validity check, the edge-set construction
  and listing, and the challenge-round simulation, as methods with loops.
- `ColoringData` (`coloring_data.dfy`): graph A, colouring A, graph B, and
  the facts about them.

Inputs that the source takes from elsewhere:

- **Randomness is an input.** `GenerateSafePrime` takes the successive
  `getrandbits` values as a sequence `draws`. `Setup` takes one natural
  number for the secret draw. `SchnorrProof` takes the sequences of nonces
  and challenges. `SimulateZkpRounds` takes one natural number per round for
  the verifier's edge choice.
- **Primality is a specified predicate.** `IsPrime` means: at least 2, with
  no divisor strictly between 1 and itself. It stands for the library
  primality test the source calls.
- **Module-level globals become parameters.** These are `p`, `q`, `g`, `x`,
  `y`, the bit length 16, and the round counts 100, 20 and 3000.

## Model

| member | source | states |
|---|---|---|
| Schnorr.OrOne | schnorr/schnorr.py:18 | OR-ing `q` with 1 yields an odd number that agrees with `q` on every bit above the lowest |
| Schnorr.OrOneBelowPowerOfTwo | schnorr/schnorr.py:17-18 | setting the low bit of a `bits`-bit draw keeps it below `2^bits` whenever the result is at least 2 |
| Schnorr.TryCofactors | schnorr/schnorr.py:20-23 | returns nothing exactly when no cofactor in `[2, 20)` makes `q*r + 1` prime; otherwise returns `p = q*r + 1` for the least such `r` |
| Schnorr.GenerateSafePrime | schnorr/schnorr.py:11-23 | the result is `q` from the first accepted draw, so every earlier draw was rejected; `q` is odd, prime and below `2^bits`; `p` is prime; `p = q*r + 1` for the least working cofactor `r` in `[2, 20)`; no result exactly when no draw is accepted |
| Schnorr.SearchResultUnique | schnorr/schnorr.py:16-23 | the draws determine the search's pair: two pairs that both come from the first accepted draw and its least working cofactor are equal |
| Schnorr.FindGenerator | schnorr/schnorr.py:29-34 | returns the least `g` in `[2, p)` with `g^q mod p == 1`; fails exactly when no value in `[2, p)` has that property |
| Schnorr.DeriveKey | schnorr/schnorr.py:37-38 | the secret is `x`, in `[1, q-1]`; the public key lies in `[0, p)`; if `g^q == 1 (mod p)` then `y^q == 1 (mod p)` too |
| Schnorr.PublicKeyOrder | schnorr/schnorr.py:38 | `(g^x mod p)^q == 1 (mod p)` whenever `g^q == 1 (mod p)` |
| Schnorr.Setup | schnorr/schnorr.py:27-38 | fails with exhausted draws exactly when no draw is accepted; fails with no generator exactly when the pair the search returns has no `h` in `[2, p)` with `h^q == 1 (mod p)`; on success `(p, q)` is that pair (q from the first accepted draw, odd and below `2^bits`, p from its least working cofactor), both are prime, `g` is the least generator candidate, the secret is `1 + d mod (q-1)` for the secret draw `d`, so in `[1, q-1]`, and `y == g^x mod p` |
| ModArith.ExponentReduction | schnorr/schnorr.py:51-53 | if `g^q == 1 (mod m)`, then `g^e` and `g^(e mod q)` agree modulo `m`, which is why the response may be reduced modulo `q` |
| ModArith.Completeness | schnorr/schnorr.py:48-55 | if `g^q == 1 (mod p)`, then `g^((s + c*x) mod q) mod p == (g^s mod p) * ((g^x mod p)^c mod p) mod p` for every `s`, `c`, `x` |
| Schnorr.HonestRoundPasses | schnorr/schnorr.py:48-55 | with an honest key and `g^q == 1 (mod p)`, the two sides of the round's check are equal |
| Schnorr.RunRound | schnorr/schnorr.py:48-55 | the response is in `[0, q)`; the commitment and both sides of the check are in `[0, p)`; the round passes exactly when the two sides agree; an honest round over a valid generator always passes |
| Schnorr.SuccessesAtMostLength | schnorr/schnorr.py:56-57 | the number of passing rounds among the log entries is at most the number of entries |
| Schnorr.AllPassedSuccesses | schnorr/schnorr.py:56-57 | when every entry is a passing round, the count equals the number of entries |
| Schnorr.SchnorrProof | schnorr/schnorr.py:42-62 | the log has `rounds + 1` entries; entry `i` is round `i + 1` computed from `nonces[i]` and `challenges[i]`; the final entry is the count of passing rounds over `rounds`; that count is at most `rounds`, and equals `rounds` for an honest key over `g` with `g^q == 1 (mod p)` |
| Schnorr.SmallExample | schnorr/schnorr.py:29-38 | for `q = 11` and `p = 23`: both primes, `23 = 11*2 + 1`, `g = 2` is the least generator candidate, and `x = 3` gives `y = 8` |
| Coloring.CheckGraphValidity | Traditional_ZKP_G3C/zkp_3-coloring-en.py:118-125 | returns true exactly when no adjacency `u -> v` with `u < v` joins two vertices of the same colour |
| Coloring.BuildEdgeSet | Traditional_ZKP_G3C/zkp_3-coloring-en.py:42-46 | every pair in the set is an adjacency; every adjacency is in the set in one orientation or the other; the set never holds both `(u, v)` and `(v, u)` for `u != v` |
| Coloring.ToList | Traditional_ZKP_G3C/zkp_3-coloring-en.py:47 | the list holds exactly the set's elements, each once, so its length is the set's size |
| Coloring.SimulateZkpRounds | Traditional_ZKP_G3C/zkp_3-coloring-en.py:36-85 | fails with an empty edge list exactly when rounds are requested over a graph with no adjacency, and with no rounds exactly when zero rounds are run with `is_valid` false; the edge list is the undirected edge set, each edge once; round `i + 1` challenges edge `picks[i]` modulo the list length, counts 4 messages and records 1 exactly when the endpoints share a colour; total messages are `4 * rounds`; the conflict count is the history's sum, at most `rounds`, and 0 for a colouring the check accepts on a symmetric loop-free graph; a simple graph's list has `total_edges` entries |
| Coloring.AcceptedColoringHasNoConflicts | Traditional_ZKP_G3C/zkp_3-coloring-en.py:118-125 | over a symmetric graph without self-loops, a colouring the check accepts clashes on no listed edge |
| Coloring.RejectedColoringHasConflictEdge | Traditional_ZKP_G3C/zkp_3-coloring-en.py:54-60 | a colouring the check rejects clashes on some listed edge, so some edge choice exposes it |
| Graphs.TotalEdges | Traditional_ZKP_G3C/zkp_3-coloring-en.py:174 | `total_edges` is the degree sum halved and rounded down: twice it is at most the degree sum, which exceeds it by at most 1 |
| EdgeCounting.ArcsSplit | Traditional_ZKP_G3C/zkp_3-coloring-en.py:42-47 | for a symmetric graph without self-loops, the directed adjacencies are exactly the edge set plus its reversal, and the two parts are disjoint |
| EdgeCounting.EdgeCount | Traditional_ZKP_G3C/zkp_3-coloring-en.py:42-47 | for a simple graph, twice the edge set's size is the degree sum, so the edge list is as long as the plotting code's `total_edges` |
| ColoringData.NeighboursA | Traditional_ZKP_G3C/zkp_3-coloring-en.py:18-23 | the neighbour lists of graph A: `v` is listed for `u` exactly when the two are next to each other in the four-column grid on 0..14, and no list repeats a vertex |
| ColoringData.ColorA | Traditional_ZKP_G3C/zkp_3-coloring-en.py:25-29 | colouring A gives vertex `u` of 0..14 the colour `1 + u mod 3` |
| ColoringData.AddEdge | Traditional_ZKP_G3C/zkp_3-coloring-en.py:31-33 | appending `v` to the list of `u` and then `u` to the list of `v` keeps the keys, extends exactly those two lists, and leaves every other list unchanged; graph B is graph A with this done for 0 and 3 |
| ColoringData.GraphsWellFormed | Traditional_ZKP_G3C/zkp_3-coloring-en.py:18-33 | the key order of graphs A and B lists each vertex exactly once and matches the dictionary's keys |
| ColoringData.GraphBAddsOnlyEdge03 | Traditional_ZKP_G3C/zkp_3-coloring-en.py:31-33 | graph B's adjacencies are exactly graph A's plus `0 -> 3` and `3 -> 0`, and graph A has neither |
| ColoringData.ColorsAProperOnGraphA | Traditional_ZKP_G3C/zkp_3-coloring-en.py:18-29 | colouring A colours every vertex of graph A, and no edge of graph A joins two vertices of the same colour |
| ColoringData.ColorsAImproperOnGraphB | Traditional_ZKP_G3C/zkp_3-coloring-en.py:25-33 | colouring A colours every vertex of graph B but is not proper there; the clash is at the added edge 0-3 |
| ColoringData.GraphASimple | Traditional_ZKP_G3C/zkp_3-coloring-en.py:18-23 | graph A is symmetric, has no self-loops and has no repeated neighbours |
| ColoringData.GraphBSimple | Traditional_ZKP_G3C/zkp_3-coloring-en.py:31-33 | graph B is symmetric, has no self-loops and has no repeated neighbours |
| ColoringData.GraphAEdgeTotal | Traditional_ZKP_G3C/zkp_3-coloring-en.py:18-23 | graph A's neighbour lists have 44 entries, so it has 22 edges |
| ColoringData.GraphBEdgeTotal | Traditional_ZKP_G3C/zkp_3-coloring-en.py:174 | graph B's degree sum is graph A's plus 2, so 46, and `total_edges` is 23 |
| ColoringData.DegreeSumAppend | Traditional_ZKP_G3C/zkp_3-coloring-en.py:32-33 | appending `s` to the list of a key listed once in the key order raises the degree sum by the length of `s` |
| ColoringData.AddEdgeDegreeSum | Traditional_ZKP_G3C/zkp_3-coloring-en.py:31-33 | adding an edge between two listed keys raises the degree sum by 2 |
| ColoringData.CheckExamples | Traditional_ZKP_G3C/zkp_3-coloring-en.py:142-148 | the validity check accepts graph A with colouring A and rejects graph B with colouring A |

In full, `Coloring.SimulateZkpRounds` states the following:

- It fails with an empty edge list exactly when at least one round is
  requested and the graph has no adjacency. This is the failed random choice.
- It fails with no rounds exactly when zero rounds are run with `is_valid`
  false. This is the division of the conflict total by zero rounds.
- The edge list is the graph's undirected edge set, each edge once.
- Round `i + 1` challenges the edge at `picks[i]` modulo the list length,
  and counts 4 messages.
- The round's history entry is 1 exactly when the two endpoints share a
  colour, and 0 otherwise.
- The total message count is `4 * rounds`.
- The conflict count is the sum of the history, which has `rounds` entries,
  so the count is at most `rounds`.
- The conflict count is 0 when the colouring clashes on no listed edge. It is
  also 0 when the check accepts the colouring on a symmetric graph without
  self-loops.
- For a simple graph, the edge list has `total_edges` entries.

## Left out

- Randomness is an input, as described above. The verifier's edge choice is
  reduced modulo the list length. The model therefore covers every edge the
  random choice could make, but it says nothing about probabilities.
- Schnorr.GenerateSafePrime: the source's endless retry loop runs over a
  finite sequence of draws. When the draws run out before a candidate is
  accepted, the model returns no result. The source would keep drawing
  instead.
- Schnorr.Setup: the secret drawn from `[1, q-1]` is modelled as
  `1 + d mod (q-1)` for an input `d`. A failed generator scan is an error
  result. It is characterised exactly, but there is no proof that it cannot
  happen for the primes the search produces.
- Schnorr.FindGenerator: `q` is a natural number. Python's `pow` with a
  negative exponent, which computes a modular inverse, is not modelled.
- Schnorr.SchnorrProof: the all-rounds-pass total is stated under two
  conditions, `g^q == 1 (mod p)` and the honest key relation
  `y == g^x mod p`. In the source, the module-level key always satisfies the
  second.
- Schnorr.SchnorrProof: each log line is a structured entry (a round record,
  then the total) rather than a formatted string.
- Primality testing is not implemented. `IsPrime` specifies what the test
  decides.
- `write_result` is file output and is not modelled.
- Coloring.CheckGraphValidity: the `KeyError` for an endpoint without a
  colour is excluded by a requires. The printed messages are omitted.
- Coloring.SimulateZkpRounds: coloured endpoints are required, which
  excludes the `KeyError` for a missing colour. The order of `list(edge_set)`
  is left open. The log strings are not modelled.
- The `is_valid` parameter of `simulate_zkp_rounds` selects extra log lines
  with floating-point probabilities, and those values are not modelled. The
  model keeps only the failure of the final rate's division when there are
  zero rounds. The plotting code's `empirical_probs` and
  `theoretical_probs` are floating point and are not modelled either.
- Drawing and plotting are rendering and are not modelled. This covers
  `draw_single_graph`, the networkx and matplotlib calls, and the
  `extract_conflict_history` string matching over log lines.
- The `enable_check` and `enable_plotcurve` flags select which presentation
  code runs, and are not modelled.
- The Fiat-Shamir, elliptic-curve, k-challenge and batch-verification
  programs in the same repository are not part of this model.
