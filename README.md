# Verified model of a molecular-modelling editor's core

The repository is a Unity molecular editor for setting up QM/MM (ONIOM) calculations on
proteins. The editor builds and edits geometries made of residues and atoms named by
4-character PDB identifiers. It records undo/redo states, runs text macros, reads and writes
Gaussian input files, and merges AMBER force-field parameters. Alongside it sit two Python
scripts for the amino-acid residue templates:

- `validate.py` searches for an integer charge increment for each AMBER atom type. A
  residue's implied charge is the sum over its atom types of increment × atom count, and a
  candidate is scored by its total absolute error against every residue's declared charge.
  The script has a genetic search (uniform crossover, bounded point mutation, elites) and an
  exhaustive search over the Cartesian product of ranges.
- `validate_bonds.py` predicts a residue's charge from bond topology and derives the spin
  multiplicity from the electron count.

This project models those pieces in Dafny and proves properties of the models:

| module | file | models |
|---|---|---|
| `ChargeSearch` | charge_search.dfy | `validate.py`: template loading, charge and score, mutation, breeding, elite selection, the genetic and exhaustive searches |
| `ValidateBonds` | bonds.dfy | `validate_bonds.py`: charge prediction and the multiplicity rule |
| `Extensions` | extensions.dfy | the bidirectional `Map`, `UpperTriangle`, `Shuffle`, `Contains` |
| `CustomMathematics` | mathematics.dfy | `IntPow`, `IndexOfMin`/`IndexOfMax`, icosphere counts, `GetCombinedHash`, `Binomial` |
| `Atoms` | atom.dfy | `PDBID`, `AtomID` and the connection dictionaries of `Atom` |
| `ResidueIDs`, `Residues` | residue_id.dfy, residue.dfy | `ResidueID` and the atom table of `Residue` |
| `Macros` | macro.dfy | variable expansion, `ExpandEnum`, `GetMutationCode`, and validation of ForLoop/ElementAt/FormArray |
| `GaussianReader` | gaussian_reader.dfy | the string helpers of the Gaussian input reader |
| `Clean` | clean.dfy | PDB-name cleaning and numbering |
| `AmberParameters` | parameters.dfy | type matching and the add/update rules of the parameter lists |
| `History` | history.dfy | the undo/redo history |
| `Notifications` | notifications.dfy | task progress and message counters of the notification bar |
| `Data` | data.dfy | hashes, bond-order thresholds, link types, terminal states and residue signatures |
| `Geometries` | geometry.dfy | connecting and disconnecting atoms, and graph searches over connections |
| `GaussianInput` | gaussian_writer.dfy | keyword, charge/multiplicity and method items, and atom-map numbering |
| `GaussianCalculators` | gaussian_calculator.dfy | ONIOM layers, optimisation and frequency options, layer ordering |
| `Text`, `Arith`, `Wrappers` | text.dfy, arith.dfy, wrappers.dfy | shared helpers: ASCII character classes, integer rendering and parsing, `Option`/`Result` |

The models follow the source's form:
- Classes whose fields the source updates in place are Dafny classes with `modifies` clauses.
  These are `Map`, `Atom`, `Residue`, `Parameters`, `GeometryHistory`, `NotificationBar`,
  `Geometry`, `MacroGroup` and the Gaussian calculator.
- Loops are methods with invariants, proved against specification functions.
- Pure helpers are functions with lemmas.
- Exceptions become `Result` errors.

Where the code and its comments or documentation disagree, the model follows the code. The
cases where the model also states the evidently intended behaviour are listed under
"## Findings"; `Geometries.GraphDistance`, whose documented shortest distance the model does
not capture, is listed under "## Left out".

## Model

| member | source | states |
|---|---|---|
| ChargeSearch.TablesWellFormed | Assets/Resources/Data/AminoAcids/validate.py:227-235 | the sorted amber names, the flexible charge ranges and the possible charge ranges have one entry per amber code, and every range is non-empty |
| ChargeSearch.IndexOf | Assets/Resources/Data/AminoAcids/validate.py:254 | `amber_names.index`: the first position holding the name, and none exactly when the name is absent |
| ChargeSearch.Load | Assets/Resources/Data/AminoAcids/validate.py:238-254 | reading a template succeeds exactly when every amber it names is in the vocabulary; the result holds the last residue charge, the ambers in file order and the count vector of those ambers; otherwise the error names an amber that is not in the vocabulary |
| ChargeSearch.CountVectorAppend | Assets/Resources/Data/AminoAcids/validate.py:254 | reading one more amber adds one to its own count and leaves the others alone |
| ChargeSearch.GetCharge | Assets/Resources/Data/AminoAcids/validate.py:263-267 | `_get_charge` is the dot product of increments and counts over the first `length` codes |
| ChargeSearch.ImpliedChargeIsPerAtomSum | Assets/Resources/Data/AminoAcids/validate.py:254-267 | the dot product with the count vector equals the sum of the increments of the template's atoms, one by one |
| ChargeSearch.ScoreUpTo | Assets/Resources/Data/AminoAcids/validate.py:270-286 | the accumulated score over the first m residues is never negative |
| ChargeSearch.ScoreZeroIff | Assets/Resources/Data/AminoAcids/validate.py:270-286 | the score is zero exactly when every residue's implied charge equals its declared charge |
| ChargeSearch.CombinationScore | Assets/Resources/Data/AminoAcids/validate.py:270-286 | the nested loops compute the score: the sum over residues of the absolute difference between declared and implied charge; it is never negative |
| ChargeSearch.Mutate | Assets/Resources/Data/AminoAcids/validate.py:319-331 | `mutate` rewrites the array in place into the specified mutation, drawing two random numbers per round |
| ChargeSearch.MutatedIndicesBound | Assets/Resources/Data/AminoAcids/validate.py:326-329 | at most `rate` positions are chosen, each below `length` |
| ChargeSearch.MutateLocal | Assets/Resources/Data/AminoAcids/validate.py:319-331 | a position that was not chosen keeps its value; a changed position lies below `length` and its new value comes from that position's flexible range |
| ChargeSearch.MutateChangesAtMostRate | Assets/Resources/Data/AminoAcids/validate.py:326-331 | mutation changes at most `rate` positions |
| ChargeSearch.Cross | Assets/Resources/Data/AminoAcids/validate.py:338-342 | the crossover has the parents' length and every gene is the gene of one parent at that position |
| ChargeSearch.Crossover | Assets/Resources/Data/AminoAcids/validate.py:338-342 | builds a fresh array holding the crossover |
| ChargeSearch.ChildGenes | Assets/Resources/Data/AminoAcids/validate.py:336-346 | a bred child has `length` genes and each is the first parent's, the second parent's or a value of that gene's flexible range |
| ChargeSearch.BreedChild | Assets/Resources/Data/AminoAcids/validate.py:336-346 | one child is the crossover followed by its mutation, and the draws move on by one child's worth |
| ChargeSearch.Offspring | Assets/Resources/Data/AminoAcids/validate.py:333-347 | `breed` gives exactly `num_offspring` children |
| ChargeSearch.OffspringAt | Assets/Resources/Data/AminoAcids/validate.py:336-346 | child k is bred from the draws that start after the k children before it |
| ChargeSearch.Breed | Assets/Resources/Data/AminoAcids/validate.py:333-347 | the loop builds the specified offspring, all of parent length, and reports where the draws end |
| ChargeSearch.OffspringLengths | Assets/Resources/Data/AminoAcids/validate.py:333-347 | every bred child has `length` genes |
| ChargeSearch.InsertByScore | Assets/Resources/Data/AminoAcids/validate.py:362 | one step of the stable sort: the list grows by the element and is a permutation of the old list plus it |
| ChargeSearch.InsertKeepsSorted | Assets/Resources/Data/AminoAcids/validate.py:362 | inserting into a list sorted by score keeps it sorted |
| ChargeSearch.SortByScore | Assets/Resources/Data/AminoAcids/validate.py:362 | sorting by score is a permutation of the input |
| ChargeSearch.SortIsSorted | Assets/Resources/Data/AminoAcids/validate.py:362 | the sorted list is in ascending score order |
| ChargeSearch.GetBestSelects | Assets/Resources/Data/AminoAcids/validate.py:349-362 | `get_best` returns min(k, n) of the candidates, in ascending score order, and none of those left out scores lower than one returned |
| ChargeSearch.GetBest | Assets/Resources/Data/AminoAcids/validate.py:349-362 | `get_best` returns min(k, n) vectors, all taken from the candidates (as a multiset) |
| ChargeSearch.MinOf | Assets/Resources/Data/AminoAcids/validate.py:422-431 | the minimum of the scores is below every score and the start, and is one of them |
| ChargeSearch.ImprovementsDecrease | Assets/Resources/Data/AminoAcids/validate.py:433-435 | the printed best scores strictly decrease, each lies below 5000 and each is one of the step minima |
| ChargeSearch.ImprovementsLastIsMin | Assets/Resources/Data/AminoAcids/validate.py:433-435 | the last printed best score is the minimum over all steps (5000 if none) |
| ChargeSearch.ImprovementsStep | Assets/Resources/Data/AminoAcids/validate.py:433-435 | a step prints its minimum exactly when it is below the best so far, and the best becomes the smaller of the two |
| ChargeSearch.MinScore | Assets/Resources/Data/AminoAcids/validate.py:422-431 | the minimum score of a generation is non-negative, at most every candidate's score and reached by one of them |
| ChargeSearch.MatingsWellFormed | Assets/Resources/Data/AminoAcids/validate.py:409-420 | the ten `breed` calls of a generation pair elites by indices below four |
| ChargeSearch.Brood | Assets/Resources/Data/AminoAcids/validate.py:409-419 | the first m `breed` calls of a generation yield 2m children, all of parent length |
| ChargeSearch.NextGeneration | Assets/Resources/Data/AminoAcids/validate.py:409-420 | the new generation is the children of the ten `breed` calls in order, each call drawing where the one before stopped, followed by the four elites; the next free draw is where the last call stopped |
| ChargeSearch.NextPopulation | Assets/Resources/Data/AminoAcids/validate.py:407-420 | a generation bred from a population of at least four full-length vectors has 24 full-length vectors, the last four being the four best of the old population |
| ChargeSearch.GenerationScore | Assets/Resources/Data/AminoAcids/validate.py:422-431 | the best score of a population is non-negative and is the score of one of its vectors |
| ChargeSearch.Generation | Assets/Resources/Data/AminoAcids/validate.py:407-431 | one loop step replaces the population by exactly NextPopulation of it at the current draw, and its score is the new population's best score |
| ChargeSearch.IteratesLink | Assets/Resources/Data/AminoAcids/validate.py:405-420 | in a run each state is the step applied to the one before it, so each population is bred from its predecessor |
| ChargeSearch.SearchStep | Assets/Resources/Data/AminoAcids/validate.py:405-431 | one loop step extends the run by the population bred from its last one and records that population's best score |
| ChargeSearch.BestOfPopulation | Assets/Resources/Data/AminoAcids/validate.py:407 | the four elites of a population of at least four vectors all have one gene per amber code |
| ChargeSearch.GeneticSearch | Assets/Resources/Data/AminoAcids/validate.py:401-440 | the printed scores are the strict improvements of the step minima from 5000, the tracked best score is the last of them and the minimum of all steps, every step minimum is non-negative, and the loop stops early only when a step reaches 0; the populations in turn are the initial set and then each one bred from the one before it, and step minimum i is the best score of population i + 1 |
| ChargeSearch.ProductCount | Assets/Resources/Data/AminoAcids/validate.py:484-497 | the product of the charge ranges has as many elements as the product of their lengths |
| ChargeSearch.ProductMembers | Assets/Resources/Data/AminoAcids/validate.py:497 | a vector is in the product exactly when it has one entry per range and each entry is in its range |
| ChargeSearch.ProductLengths | Assets/Resources/Data/AminoAcids/validate.py:497 | every element of the product has one entry per range |
| ChargeSearch.ProductNoDuplicates | Assets/Resources/Data/AminoAcids/validate.py:497 | with duplicate-free ranges the product visits every element once |
| ChargeSearch.ErrorsAt | Assets/Resources/Data/AminoAcids/validate.py:501 | the k-th error is the score of the k-th product element |
| ChargeSearch.LastSolutionSpec | Assets/Resources/Data/AminoAcids/validate.py:507-509 | the solutions file is written exactly when some error is below 7, and it then holds the last such error with its vector |
| ChargeSearch.ExhaustiveSearch | Assets/Resources/Data/AminoAcids/validate.py:495-512 | the loop counts the elements from 0, prints exactly the strict improvements from 40, ends with a minimum error no larger than 40 and no larger than any vector's score, and leaves the last solution below 7 in the file |
| ChargeSearch.MinBelowAll | Assets/Resources/Data/AminoAcids/validate.py:503-505 | the final minimum error is at most 40 and at most the score of every vector of the product |
| ChargeSearch.VisitStep | Assets/Resources/Data/AminoAcids/validate.py:497-509 | visiting one more element appends its error, prints it when it improves, and records it when it is below 7 |
| ValidateBonds.PredictCharge | Assets/Resources/Data/AminoAcids/validate_bonds.py:212-240 | `predict_charge` (in half units) succeeds exactly when every atom's look-up does, and then returns the sum of the atoms' contributions plus the aromatic count modulo 2, together with the aromatic count; otherwise it fails with the first failing look-up |
| ValidateBonds.AtomCharge | Assets/Resources/Data/AminoAcids/validate_bonds.py:222-236 | one atom: backbone " O  "/O, " N  "/N and " C  "/C atoms and codes outside `charge_dict` add nothing, otherwise the charge for its neighbour count is looked up, failing when there is none |
| ValidateBonds.NeutralAtomAddsNothing | Assets/Resources/Data/AminoAcids/validate_bonds.py:222-234 | a backbone atom, or one whose code is absent from the charge table, can be removed from the list without changing the summed contribution |
| ValidateBonds.ContributionSumOk | Assets/Resources/Data/AminoAcids/validate_bonds.py:231-236 | the contributions sum without error exactly when every atom's own look-up succeeds |
| ValidateBonds.ContributionSum | Assets/Resources/Data/AminoAcids/validate_bonds.py:217-236 | an atom-free template sums to 0; a failed sum is the failure of the first atom whose look-up fails, every earlier atom's look-up succeeding |
| ValidateBonds.SumOfOk | Assets/Resources/Data/AminoAcids/validate_bonds.py:231-236 | a running sum with first-error semantics succeeds exactly when all its terms do |
| ValidateBonds.FirstErrorStays | Assets/Resources/Data/AminoAcids/validate_bonds.py:232-236 | once a look-up has failed, the rest of the atoms do not change the outcome |
| ValidateBonds.ZeroAddsNothing | Assets/Resources/Data/AminoAcids/validate_bonds.py:222-234 | a skipped atom contributes nothing to the sum |
| ValidateBonds.SumStep | Assets/Resources/Data/AminoAcids/validate_bonds.py:217-236 | one iteration adds the atom's contribution to the running sum and its aromatic weight to the aromatic count |
| ValidateBonds.AromaticHalvesOnlyAtO2 | Assets/Resources/Data/AminoAcids/validate_bonds.py:166-181 | in `aromatics` only O2 has a half weight (0.5); every other weight is a whole number |
| ValidateBonds.WholeAromaticWithoutCode | Assets/Resources/Data/AminoAcids/validate_bonds.py:219-220 | without atoms of the one half-weight code the aromatic count is whole |
| ValidateBonds.SumOfWhole | Assets/Resources/Data/AminoAcids/validate_bonds.py:236 | a sum of whole contributions is whole |
| ValidateBonds.WholeWithoutCode | Assets/Resources/Data/AminoAcids/validate_bonds.py:231-240 | when only one code has half charges and no atom has that code, the predicted contribution is whole |
| ValidateBonds.MultiplicityWholeCharge | Assets/Resources/Data/AminoAcids/validate_bonds.py:248 | for a whole predicted charge c the multiplicity is 1 exactly when electrons + c is even, and 2 exactly when it is odd |
| ValidateBonds.MultiplicityOf | Assets/Resources/Data/AminoAcids/validate_bonds.py:248 | the multiplicity is 1 or 2, and 2 whenever the predicted charge ends in .5 |
| ValidateBonds.Multiplicity | Assets/Resources/Data/AminoAcids/validate_bonds.py:248 | fails exactly when some atom's code has no electron count, as the `electrons[a.amber]` look-up raises; otherwise 1 or 2, and 2 for a charge ending in .5 |
| ValidateBonds.MultiplicityHalfCharge | Assets/Resources/Data/AminoAcids/validate_bonds.py:248 | a predicted charge ending in .5 never makes the sum even, so the multiplicity is 2 |
| ValidateBonds.ElectronSumOk | Assets/Resources/Data/AminoAcids/validate_bonds.py:248 | the electron sum fails exactly when some atom's code has no electron count |
| ValidateBonds.Contributions | Assets/Resources/Data/AminoAcids/validate_bonds.py:217-236 | there is one contribution per atom, each the atom's own |
| Extensions.Map.constructor | Assets/Extensions/Extensions.cs:67-70 | a new map has empty, mirrored dictionaries |
| Extensions.Map.Add | Assets/Extensions/Extensions.cs:76-93 | on any state, mirrored or not: a key already present fails with DuplicateKey, otherwise a value already present fails with DuplicateValue, and neither changes the map; on success forward[key] = value and reverse[value] = key; mirrored dictionaries stay mirrored |
| Extensions.Map.Remove | Assets/Extensions/Extensions.cs:96-106 | true exactly when the key and the value are both present, and then both entries are dropped; otherwise nothing changes |
| Extensions.Map.RemovePair | Assets/Extensions/Extensions.cs:96-106 | the intended removal: only a pair whose key maps to that value is removed, and the dictionaries stay mirrored |
| Extensions.Map.RemoveKey | Assets/Extensions/Extensions.cs:118-120 | on any state: a missing key fails as the dictionary look-up does; otherwise the result is true exactly when the key's value has a reverse entry, and then both entries are removed, else nothing changes; on mirrored dictionaries the result is always true and the mirror is kept |
| Extensions.Map.RemoveValue | Assets/Extensions/Extensions.cs:122-124 | the same from the reverse side: true exactly when the value's key has a forward entry, and always true on mirrored dictionaries |
| Extensions.Map.TryGetValue | Assets/Extensions/Extensions.cs:126-128 | on any state a value is found exactly when the key is present, and it is the key's forward entry; on mirrored dictionaries it maps back to the key |
| Extensions.Map.TryGetKey | Assets/Extensions/Extensions.cs:130-132 | on any state a key is found exactly when the value is present, and it is the value's reverse entry; on mirrored dictionaries it maps to the value |
| Extensions.Map.SetByKey | Assets/Extensions/Extensions.cs:134-141 | the key setter: forward[k] = v, and the reverse side loses v's old entry, then maps v to k |
| Extensions.Map.SetByValue | Assets/Extensions/Extensions.cs:142-149 | the value setter: reverse[v] = k, and the forward side loses k's old entry, then maps k to v |
| Extensions.Map.Put | Assets/Extensions/Extensions.cs:134-141 | the intended key setter: afterwards k and v are paired both ways, every other surviving pair is unchanged and none of them holds v, and the dictionaries stay mirrored |
| Extensions.Map.Clear | Assets/Extensions/Extensions.cs:151-154 | both dictionaries become empty |
| Extensions.RemoveMismatchBreaksInverse | Assets/Extensions/Extensions.cs:96-106 | removing a key with another key's value leaves the two dictionaries out of step |
| Extensions.SetByKeyLeavesStaleEntries | Assets/Extensions/Extensions.cs:134-141 | re-setting a key leaves the old value pointing back at it, so the dictionaries are out of step |
| Extensions.UpperTriangle | Assets/Extensions/Extensions.cs:18-25 | the nested loops yield, row by row, each item paired with every later item |
| Extensions.RowsMembers | Assets/Extensions/Extensions.cs:18-25 | a pair is yielded exactly when it is (xs[i], xs[j]) for some i < j |
| Extensions.RowsCount | Assets/Extensions/Extensions.cs:18-25 | the first n rows hold n(2|xs| - n - 1)/2 pairs |
| Extensions.UpperTriangleCount | Assets/Extensions/Extensions.cs:18-25 | the upper triangle holds n(n - 1)/2 pairs |
| Extensions.SwapPermutes | Assets/Extensions/Extensions.cs:36-38 | swapping two elements permutes the list |
| Extensions.ShuffleFromPermutes | Assets/Extensions/Extensions.cs:34-39 | the swaps from position i down keep the length and permute the list |
| Extensions.SwapDown | Assets/Extensions/Extensions.cs:34-39 | the in-place loop performs the specified swaps and leaves a permutation of the input |
| Extensions.Shuffle | Assets/Extensions/Extensions.cs:31-40 | `Shuffle` as written, stopping at i > 1: the array is a permutation of its input |
| Extensions.ShuffleKeepsPairs | Assets/Extensions/Extensions.cs:34 | as written, a two-element list is never shuffled |
| Extensions.ShuffleFull | Assets/Extensions/Extensions.cs:31-40 | the intended Fisher-Yates shuffle, running down to i > 0: a permutation of the input |
| Extensions.ShuffleFullSwapsPairs | Assets/Extensions/Extensions.cs:34-38 | with i > 0 a two-element list can come out swapped |
| Extensions.IndexOf | Assets/Extensions/Extensions.cs:59 | the first occurrence of the value at or after the start, or none when there is none |
| Extensions.Contains | Assets/Extensions/Extensions.cs:58-60 | true exactly when both strings are present and non-empty and the value occurs in the string |
| CustomMathematics.PowAdd | Assets/Mathematics/Mathematics.cs:126-135 | x^(a+b) = x^a * x^b, the identity that lets the square-and-multiply loop split the exponent into its bits |
| CustomMathematics.PowSquare | Assets/Mathematics/Mathematics.cs:131-132 | squaring the base halves the exponent: (x*x)^p = x^(2p) |
| CustomMathematics.PowLoop | Assets/Mathematics/Mathematics.cs:127-134 | the square-and-multiply loop over the bits of a non-negative power returns exactly x^pow |
| CustomMathematics.IntPow | Assets/Mathematics/Mathematics.cs:126-135 | as written: a non-negative power gives x^pow, a negative power is reinterpreted as the unsigned pow + 2^32 and gives x^(pow + 2^32), not 1 |
| CustomMathematics.NegativePowerIsNotOne | Assets/Mathematics/Mathematics.cs:122-128 | counterexample to the documented "a value of 0 or less will return 1": IntPow(0, -1) is 0 and IntPow(-1, -1) is -1 |
| CustomMathematics.IntPowClamped | Assets/Mathematics/Mathematics.cs:122-135 | the documented behaviour: a power of 0 or less gives 1, a positive power gives x^pow |
| CustomMathematics.PowZeroBase | Assets/Mathematics/Mathematics.cs:126-135 | 0 to any positive power is 0 (half of the counterexample) |
| CustomMathematics.PowMinusOneOdd | Assets/Mathematics/Mathematics.cs:126-135 | -1 to any odd power is -1 (the other half of the counterexample) |
| CustomMathematics.PowPositive | Assets/Mathematics/Mathematics.cs:1051-1056 | a positive base to any power is positive, so the sphere counts are positive |
| CustomMathematics.SphereCounts | Assets/Mathematics/Mathematics.cs:1051-1056 | a resolution-0 icosphere has 12 vertices and 20 triangles; each resolution step multiplies the triangles by 4 and adds 3/2 new vertices per old triangle; Euler's relation 2V = T + 4 holds at every resolution |
| CustomMathematics.IndexOfMin | Assets/Mathematics/Mathematics.cs:302-318 | an empty array is an error; otherwise the returned index is in range, holds a value no greater than any other, and is the first such index |
| CustomMathematics.IndexOfMax | Assets/Mathematics/Mathematics.cs:359-375 | an empty array is an error; otherwise the returned index is in range, holds a value no smaller than any other, and is the first such index |
| CustomMathematics.CombineHashMultiplies | Assets/Mathematics/Mathematics.cs:1199-1201 | with C# precedence the pair hash is (hash0 * 65) xor hash1 in 32-bit arithmetic, so xoring the result with hash1 recovers hash0 * 65 |
| CustomMathematics.GetCombinedHash | Assets/Mathematics/Mathematics.cs:1188-1197 | an empty list fails as the source's IndexOutOfRange; otherwise the result is the left fold of the pair hash over the list, and a single hash is returned unchanged |
| CustomMathematics.FoldHashesSnoc | Assets/Mathematics/Mathematics.cs:1192-1195 | appending one hash to the list combines it with the hash of the prefix, as one more loop step does |
| CustomMathematics.FallingTimesFact | Assets/Mathematics/Mathematics.cs:1208-1211 | the product n(n-1)...(n-i+1) accumulated by the loop times (n-i)! is n! |
| CustomMathematics.FractionIsChoose | Assets/Mathematics/Mathematics.cs:1208-1211 | the loop's numerator over i! is n! / (i! (n-i)!) |
| CustomMathematics.Binomial | Assets/Mathematics/Mathematics.cs:1204-1213 | k outside 0..n gives 0, k equal to 0 or n gives 1, and otherwise the exact value of the accumulated fraction num/den is n! / (k! (n-k)!), using the smaller of k and n-k |
| CustomMathematics.ChooseFraction | Assets/Mathematics/Mathematics.cs:1207-1211 | taking min(k, n-k) iterations gives the same binomial coefficient either way |
| Atoms.MakePDBID | Assets/Atoms/Scripts/Atom.cs:181-191 | building a PDB ID from an element symbol succeeds exactly when the symbol is in the element map, with that element, identifier and number; an unknown symbol is an UnknownElement error |
| Atoms.Capitalised | Assets/Atoms/Scripts/Atom.cs:327-331 | a metal-ion name is rewritten with its first letter upper case and the rest lower case, same length |
| Atoms.FromString | Assets/Atoms/Scripts/Atom.cs:316-406 | a name whose length is not 4 is a WrongLength error; every success comes from a 4-character name; every result is either an error or a PDB ID whose element was found in the element map |
| Atoms.ToString | Assets/Atoms/Scripts/Atom.cs:272-283 | a name with a one- or two-letter symbol, at most three columns of symbol and identifier and a number 0..9 is 4 characters; a two-letter symbol fills the first two columns; a one-letter symbol sits in the second column, with a two-letter identifier after it |
| Atoms.ReadLayout | Assets/Atoms/Scripts/Atom.cs:335-404 | the column-layout reading of a 4-character name only yields elements found in the element map |
| Atoms.NotMetalIon | Assets/Atoms/Scripts/Atom.cs:326-335 | with an empty residue name and a non-blank name, the metal-ion branch is skipped and the column layout decides |
| Atoms.ReadNumbered | Assets/Atoms/Scripts/Atom.cs:340-350 | names whose last two columns are digits (' H10', 'HG11') parse to known elements only |
| Atoms.ReadIndented | Assets/Atoms/Scripts/Atom.cs:357-379 | names with a leading blank (' N  ', ' N1 ', ' NA1', ' NA ') parse to known elements only |
| Atoms.ReadUnindented | Assets/Atoms/Scripts/Atom.cs:380-403 | names starting with a letter ('NA  ', 'NA1 ', 'NAB1') parse to known elements only |
| Atoms.ParsesAlphaCarbon | Assets/Atoms/Scripts/Atom.cs:375-378 | " CA " parses to carbon with identifier "A" and number 0 |
| Atoms.ParsesNewStyleHydrogen | Assets/Atoms/Scripts/Atom.cs:351-356 | "1HG1" parses to hydrogen with identifier "G1" and number 1 |
| Atoms.NewStyleName | Assets/Atoms/Scripts/Atom.cs:351-356 | any name of the form digit, one-letter element, two-character identifier parses to that element, identifier and number |
| Atoms.OnlyFourCharacterNames | Assets/Atoms/Scripts/Atom.cs:317-322 | a successful parse implies the name had exactly 4 characters |
| Atoms.FromStringToStringOneLetter | Assets/Atoms/Scripts/Atom.cs:272-283 | for a one-letter element, a letter identifier of at most two characters and a number 0..9, parsing the written name gives back the same PDB ID |
| Atoms.TwoColumnName | Assets/Atoms/Scripts/Atom.cs:272-283 | an element plus a one-letter identifier is written as " XA" plus the number column and read back unchanged |
| Atoms.OneColumnName | Assets/Atoms/Scripts/Atom.cs:272-283 | an element with no identifier is written as " X" plus the number column and read back unchanged |
| Atoms.ThreeColumnName | Assets/Atoms/Scripts/Atom.cs:272-283 | an element plus a two-letter identifier is written with the number in front and read back unchanged |
| Atoms.FromStringToStringTwoLetters | Assets/Atoms/Scripts/Atom.cs:272-283 | a two-letter element with no identifier and a number 0..9 is written left-aligned and read back unchanged |
| Atoms.AmbiguousName | Assets/Atoms/Scripts/Atom.cs:272-283 | writing is not injective: (H, "G1", 0) and (H, "G", 1) are both written " HG1", which reads back as (H, "G", 1) |
| Atoms.Compare | Assets/Atoms/Scripts/Atom.cs:408-416 | the comparison result is -1, 0 or 1 |
| Atoms.CompareZeroIffEqual | Assets/Atoms/Scripts/Atom.cs:408-416 | two PDB IDs compare equal exactly when element, identifier and number are all equal |
| Atoms.CompareAntisymmetric | Assets/Atoms/Scripts/Atom.cs:408-416 | swapping the arguments negates the comparison |
| Atoms.CompareTransitive | Assets/Atoms/Scripts/Atom.cs:408-416 | the order is transitive |
| Atoms.CompareByElementFirst | Assets/Atoms/Scripts/Atom.cs:411-412 | a smaller element sorts first whatever the identifier and number |
| Atoms.NextNumber | Assets/Atoms/Scripts/Atom.cs:419 | keeps element and identifier and adds 1 to the number |
| Atoms.TypeEquals | Assets/Atoms/Scripts/Atom.cs:230-234 | two names agree in element and identifier exactly when they differ at most in their number |
| Atoms.IsEmpty | Assets/Atoms/Scripts/Atom.cs:435-438 | a name is empty exactly when it is the placeholder (element X, no identifier, number 0) |
| Atoms.PreviousNumber | Assets/Atoms/Scripts/Atom.cs:422-431 | fails exactly when the number is 0; otherwise keeps element and identifier and subtracts 1 |
| Atoms.PreviousOfNextNumber | Assets/Atoms/Scripts/Atom.cs:419-431 | PreviousNumber undoes NextNumber except from number -1, where the next number is 0 and has no previous |
| Atoms.NextNumberSortsAfter | Assets/Atoms/Scripts/Atom.cs:408-419 | the next number always sorts after the original |
| Atoms.CompareAtomIDs | Assets/Atoms/Scripts/Atom.cs:491-498 | the atom ID comparison is -1, 0 or 1 |
| Atoms.CompareAtomIDsZeroIffEqual | Assets/Atoms/Scripts/Atom.cs:491-498 | atom IDs compare equal exactly when residue ID and PDB ID are equal |
| Atoms.CompareAtomIDsAntisymmetric | Assets/Atoms/Scripts/Atom.cs:491-498 | swapping the arguments negates the atom ID comparison |
| Atoms.AtomIDFromString | Assets/Atoms/Scripts/Atom.cs:537-544 | a string shorter than 4 fails as the source's Substring does; otherwise it succeeds exactly when the residue part and the last 4 characters both parse, and the result holds those two parses |
| Atoms.AtomIDToString | Assets/Atoms/Scripts/Atom.cs:472-474 | an atom ID is written as a text ending in its PDB name, whose part before the name reads back as the residue ID when the chain has no digit and the number is a non-negative 32-bit int |
| Atoms.AtomIDRoundTrip | Assets/Atoms/Scripts/Atom.cs:472-544 | an atom ID whose residue ID and 4-character PDB name both round-trip is read back unchanged from its written form |
| Atoms.Atom.constructor | Assets/Atoms/Scripts/Atom.cs:118-124 | a new atom holds the given residue ID, AMBER type, partial charge and layer, connection type NULL and no connections |
| Atoms.Atom.NeighboursAreConnections | Assets/Atoms/Scripts/Atom.cs:62-81 | an atom ID is among the enumerated neighbours exactly when IsConnectedTo holds for it |
| Atoms.Atom.Neighbours | Assets/Atoms/Scripts/Atom.cs:61-69 | every internal connection, completed with the atom's own residue ID, and every external connection is enumerated, and nothing else is |
| Atoms.Atom.IsConnectedTo | Assets/Atoms/Scripts/Atom.cs:71-82 | true exactly when the ID is among the enumerated neighbours |
| Atoms.Atom.Connect | Assets/Atoms/Scripts/Atom.cs:103-111 | a same-residue atom is written to the internal connections under its PDB ID, any other atom to the external connections; nothing else changes and the atom is then connected |
| Atoms.Atom.TryDisconnect | Assets/Atoms/Scripts/Atom.cs:86-98 | the result is whether the atom was connected; the internal entry is removed when present, else the external one; afterwards the atom is no longer a neighbour |
| Atoms.Atom.Copy | Assets/Atoms/Scripts/Atom.cs:127-140 | the copy is a fresh atom with equal fields and equal connection maps |
| Atoms.ConnectThenDisconnect | Assets/Atoms/Scripts/Atom.cs:86-111 | disconnecting right after connecting succeeds and leaves the atom unconnected |
| Atoms.CopyIsIndependent | Assets/Atoms/Scripts/Atom.cs:127-140 | connecting the copy does not change the original's connections |
| ResidueIDs.ToString | Assets/Atoms/Scripts/Residue.cs:1266-1268 | a residue ID is written as its chain ID followed by a non-empty rest that reads back as the residue number when that fits in 32 bits |
| ResidueIDs.DigitsOf | Assets/Atoms/Scripts/Residue.cs:1299-1306 | the characters collected for the number are all digits and no more than the input |
| ResidueIDs.NonDigitsOf | Assets/Atoms/Scripts/Residue.cs:1299-1306 | the characters collected for the chain contain no digit and are no more than the input |
| ResidueIDs.SplitCountsAll | Assets/Atoms/Scripts/Residue.cs:1299-1306 | every input character goes to exactly one of the two lists |
| ResidueIDs.SplitAppend | Assets/Atoms/Scripts/Residue.cs:1299-1306 | the character-by-character split distributes over concatenation |
| ResidueIDs.SplitOfDigits | Assets/Atoms/Scripts/Residue.cs:1299-1306 | an all-digit string goes entirely to the number |
| ResidueIDs.SplitOfNonDigits | Assets/Atoms/Scripts/Residue.cs:1299-1306 | a digit-free string goes entirely to the chain |
| ResidueIDs.FromString | Assets/Atoms/Scripts/Residue.cs:1298-1308 | succeeds exactly when there is at least one digit and the digits fit in a 32-bit int; then the chain is the non-digit characters and the number is the value of the digits; no digit at all is a NotANumber error |
| ResidueIDs.FromStringToString | Assets/Atoms/Scripts/Residue.cs:1266-1308 | reading back a written residue ID gives the same ID when the chain has no digit and the number is a non-negative 32-bit int |
| ResidueIDs.DigitInChainIsLost | Assets/Atoms/Scripts/Residue.cs:1266-1308 | a chain containing a digit does not round-trip: ("A1", 2) is written "A12" and read back as ("A", 12) |
| ResidueIDs.Compare | Assets/Atoms/Scripts/Residue.cs:1270-1276 | the comparison result is -1, 0 or 1 |
| ResidueIDs.CompareZeroIffEqual | Assets/Atoms/Scripts/Residue.cs:1270-1276 | residue IDs compare equal exactly when chain and number are equal |
| ResidueIDs.CompareAntisymmetric | Assets/Atoms/Scripts/Residue.cs:1270-1276 | swapping the arguments negates the comparison |
| ResidueIDs.CompareTransitive | Assets/Atoms/Scripts/Residue.cs:1270-1276 | the order is transitive |
| ResidueIDs.SameChainByNumber | Assets/Atoms/Scripts/Residue.cs:1270-1276 | within one chain, residue IDs sort by residue number |
| ResidueIDs.NextID | Assets/Atoms/Scripts/Residue.cs:1323 | the next ID keeps the chain and adds 1 to the number |
| ResidueIDs.PreviousID | Assets/Atoms/Scripts/Residue.cs:1325-1334 | fails exactly when the number is 0; otherwise keeps the chain and subtracts 1 |
| ResidueIDs.PreviousOfNext | Assets/Atoms/Scripts/Residue.cs:1323-1334 | the previous of the next ID is the original, except from number -1 |
| ResidueIDs.NextOfPrevious | Assets/Atoms/Scripts/Residue.cs:1323-1334 | for a non-zero number the previous ID exists and its next ID is the original |
| Residues.FirstFreeUnique | Assets/Atoms/Scripts/Residue.cs:202-215 | the ID the numbering search settles on is unique: the first free number at or above the requested one |
| Residues.AheadShrinks | Assets/Atoms/Scripts/Residue.cs:208-211 | each NextNumber step of the search over an occupied ID strictly shrinks the set of occupied IDs still ahead, so the search ends |
| Residues.Residue.constructor | Assets/Atoms/Scripts/Residue.cs:99-103 | a new residue holds the given ID and name, no atoms, and is not protonated |
| Residues.Residue.ProtonCount | Assets/Atoms/Scripts/Residue.cs:34 | the proton count is zero exactly when no key of the atom table is a hydrogen |
| Residues.Residue.FirstFreeID | Assets/Atoms/Scripts/Residue.cs:206-212 | the loop returns the first ID at or above the requested number, with the same element and identifier, that the table does not hold |
| Residues.Residue.Store | Assets/Atoms/Scripts/Residue.cs:242-247 | a free ID is bound to the atom, the atom takes the residue's ID, the table grows by one, and a hydrogen sets protonated |
| Residues.Residue.AddAtom | Assets/Atoms/Scripts/Residue.cs:227-249 | with throwIfExists an existing ID is a PDBIDExists error that changes nothing; otherwise the atom is stored under the first free number at or above the requested one, the table grows by one, and protonated becomes true if that ID is a hydrogen |
| Residues.Residue.AddAtomNumbered | Assets/Atoms/Scripts/Residue.cs:202-215 | the accepted ID is the first free one (the requested ID itself when free), was absent before, now maps to the atom, and the table grows by one |
| Residues.Residue.FreeProtonNumber | Assets/Atoms/Scripts/Residue.cs:179-189 | returns the smallest number below 8 whose hydrogen ID with the host's identifier is free, or none when all 8 are taken |
| Residues.Residue.AddProton | Assets/Atoms/Scripts/Residue.cs:178-190 | all 8 proton IDs taken is a TooManyProtons error; a missing host is a PDBIDMissing error; errors change nothing; on success a fresh hydrogen with the smallest free number, the host's identifier, the corrected link AMBER type of `Data.GetLinkType` and the host's layer is added, bonded singly to the host both ways, and the residue is protonated |
| Residues.Residue.AddProtonAsWritten | Assets/Atoms/Scripts/Residue.cs:178-190 | as `AddProton`, but the new hydrogen's AMBER type is the one the as-written `Data.GetLinkTypeAsWritten` gives, as `AddAtomToHost` computes it |
| Residues.Residue.AttachProton | Assets/Atoms/Scripts/Residue.cs:256-310 | the proton is a fresh atom in this residue with the given AMBER type and the host's layer, stored under a free hydrogen ID and single-bonded to the host in both connection tables; the other atoms are unchanged |
| Residues.Residue.RemoveAtom | Assets/Atoms/Scripts/Residue.cs:349-368 | a missing ID is a PDBIDMissing error that changes nothing; otherwise the key is deleted and protonated stays true only while a hydrogen remains |
| Residues.Residue.ChangePDBID | Assets/Atoms/Scripts/Residue.cs:405-423 | renaming to the same ID does nothing; a missing old ID or an existing new ID is an error that changes nothing; otherwise the atom moves from the old key to the new one and the table keeps its size |
| Residues.RenameRoundTrip | Assets/Atoms/Scripts/Residue.cs:405-423 | renaming an atom to a free ID and back restores the table |
| Residues.AddThenRemove | Assets/Atoms/Scripts/Residue.cs:202-215 | adding an atom and removing the ID it was given restores the table |
| Residues.RetargetNeighbourAsWritten | Assets/Atoms/Scripts/Residue.cs:424-432 | as written, each neighbour's internal connection table loses the old PDB ID and gains the new one, whatever residue the neighbour is in |
| Residues.RetargetAsWrittenMissesExternal | Assets/Atoms/Scripts/Residue.cs:424-432 | for a neighbour in another residue the as-written rewrite leaves it bonded to the old atom ID and not to the new one |
| Residues.RetargetNeighbour | Assets/Atoms/Scripts/Residue.cs:424-432 | the intended rewrite: the neighbour stops being connected to the old atom ID, becomes connected to the new one, and keeps every other connection |
| Macros.Directory | Assets/Macro/Macro.cs:2186-2193 | a settings directory variable always ends with '/': the directory itself when it already does, otherwise the project path plus '/' |
| Macros.Variable | Assets/Macro/Macro.cs:2180-2228 | a user variable (looked up by lower-cased name) wins and does not fail; otherwise the group fails exactly for a name that is not reserved, or for RESIDUES without a geometry, and a failing lookup gives ""; the directory names always end with '/' |
| Macros.Halt | Assets/Macro/Macro.cs:2080-2084 | stopping the scan on an error discards the output and fails the group |
| Macros.Expand | Assets/Macro/Macro.cs:2053-2125 | an expansion that fails the group gives "" unless the failure came from a variable lookup inside the scan |
| Macros.RunAppend | Assets/Macro/Macro.cs:2064-2113 | scanning a + b is scanning b from the state scanning a left |
| Macros.HaltedStays | Assets/Macro/Macro.cs:2082-2083 | once the scan has stopped on an error, further characters change nothing |
| Macros.RunOne | Assets/Macro/Macro.cs:2064-2113 | scanning one character is one step of the loop |
| Macros.RunTwo | Assets/Macro/Macro.cs:2064-2113 | scanning two characters is two steps of the loop |
| Macros.Halted | Assets/Macro/Macro.cs:2080-2101 | if the scan stops on an error at any prefix, the whole expansion is "" and fails |
| Macros.PlainText | Assets/Macro/Macro.cs:2110-2111 | outside a variable, text without '$' is appended to the output unchanged |
| Macros.ReadName | Assets/Macro/Macro.cs:2085-2109 | inside $( ) or ${ }, characters other than '$' and the closing bracket are collected into the name |
| Macros.NoDollarUnchanged | Assets/Macro/Macro.cs:2053-2125 | an input without '$' expands to itself and does not fail |
| Macros.ExpandsVariable | Assets/Macro/Macro.cs:2072-2091 | $(name) between plain text is replaced by the variable's value, and fails exactly as the variable lookup does |
| Macros.ExpandsLength | Assets/Macro/Macro.cs:2076-2106 | ${name} between plain text is replaced by the length of the lower-cased array; a missing array empties the expansion and fails |
| Macros.BadDollarFails | Assets/Macro/Macro.cs:2080-2084 | a '$' followed by anything but '(', '{' or '$' empties the expansion and fails |
| Macros.UnterminatedVariableFails | Assets/Macro/Macro.cs:2114-2123 | a $( with no closing ')' empties the expansion and fails |
| Macros.UnterminatedLengthDropped | Assets/Macro/Macro.cs:2094-2124 | a ${ with no closing '}' is silently dropped: the text before it is returned and nothing fails |
| Macros.TrailingDollarDropped | Assets/Macro/Macro.cs:2067-2124 | a '$' at the very end is dropped without failing |
| Macros.FirstMatch | Assets/Macro/Macro.cs:2162 | the name lookup of `Enum.TryParse`: the first member whose name equals the given name ignoring case, and none exactly when no member's name does |
| Macros.NamesValue | Assets/Macro/Macro.cs:2162 | a comma-separated list parses exactly when every trimmed piece names a member ignoring case, and its value is a 32-bit value (the members' values or-ed together) |
| Macros.EnumTryParse | Assets/Macro/Macro.cs:2162 | `Enum.TryParse` with case ignored gives a 32-bit value and fails on an input that is blank once trimmed |
| Macros.NumericFallbackFails | Assets/Macro/Macro.cs:2162 | a trimmed input starting with a digit or a sign names no member, so reading it as names after a malformed number always fails |
| Macros.MemberNameParses | Assets/Macro/Macro.cs:2162 | a member's name in any case, with white space around it, parses to that member's value (the first member of that name) |
| Macros.FirstMatchIsMember | Assets/Macro/Macro.cs:2162 | a name equal ignoring case to a member's, and to no earlier member's, is looked up as that member |
| Macros.UnknownNameFails | Assets/Macro/Macro.cs:2162 | a trimmed name, not starting like a number and without a comma, that matches no member ignoring case does not parse |
| Macros.MemberListParses | Assets/Macro/Macro.cs:2162 | a member's name, a comma and a list that parses to v parse to the member's value or-ed with v |
| Macros.NumberParses | Assets/Macro/Macro.cs:2162 | every 32-bit number, with white space around it, parses to itself, whether or not a member has that value |
| Macros.EnumFrom | Assets/Macro/Macro.cs:2127-2178 | the enum read from an input is a 32-bit value: the first value `GetValues` lists, `TryParse`'s default 0, or a value `TryParse` gives for some input |
| Macros.ExpandEnum | Assets/Macro/Macro.cs:2127-2178 | the loop over the input returns the value of the enum scan, a 32-bit value |
| Macros.EnumWithoutVariable | Assets/Macro/Macro.cs:2128-2177 | an input without '$' gives the first value `GetValues` lists |
| Macros.EnumReadsName | Assets/Macro/Macro.cs:2158-2173 | inside $( ) the variable's name is everything up to the next ')' |
| Macros.ScanWithoutDollar | Assets/Macro/Macro.cs:2128-2177 | the scan of an input without '$' finds no variable |
| Macros.ScanFindsVariable | Assets/Macro/Macro.cs:2128-2173 | the scan of plain text followed by $(name) finds that name, whatever follows |
| Macros.EnumOfVariable | Assets/Macro/Macro.cs:2127-2178 | $(name) after plain text gives what `TryParse` leaves for the name, whatever follows |
| Macros.PaddedNameParses | Assets/Macro/Macro.cs:2162 | for the ONIOM layer enum, " MODEL " parses to MODEL (2): the name is trimmed |
| Macros.PaddedNameExample | Assets/Macro/Macro.cs:2127-2178 | for the ONIOM layer enum, "$( MODEL )" gives MODEL (2) |
| Macros.NumberExample | Assets/Macro/Macro.cs:2127-2178 | for the ONIOM layer enum, "$(1)" gives INTERMEDIATE, the member of value 1 |
| Macros.UndefinedNumberExample | Assets/Macro/Macro.cs:2127-2178 | for the ONIOM layer enum, "$(99)" gives 99, a value no member has |
| Macros.UnknownNameExample | Assets/Macro/Macro.cs:2127-2178 | for the ONIOM layer enum, "$(QM)" gives `TryParse`'s default 0 |
| Macros.PlainTextExample | Assets/Macro/Macro.cs:2127-2178 | for the ONIOM layer enum, "MODEL" without '$' gives the first value, REAL (0) |
| Macros.MutationCode | Assets/Macro/Macro.cs:2234-2255 | an unknown old residue name fails first; an unknown target fails next; otherwise the code is built |
| Macros.MutationCodeReadsBack | Assets/Macro/Macro.cs:2234-2255 | the code starts with the old one-letter code, ends with the target's, and the middle reads back as the residue number |
| Macros.IntOr | Assets/Macro/Macro.cs:369-385 | a blank attribute gives the default, otherwise its integer parse |
| Macros.CheckLoop | Assets/Macro/Macro.cs:355-404 | on success the variable is lower-cased and non-blank, start and step are the values read and stop is the parse of its attribute, and the step moves from start towards stop; StepNotPositive is returned exactly when stop > start and step < 1 |
| Macros.ParseLoop | Assets/Macro/Macro.cs:366-385 | the intended reading: start is 0 when blank, else its parse; step is 1 when blank, else the parse of the step attribute |
| Macros.ParseLoopAsWritten | Assets/Macro/Macro.cs:376-383 | as written: a non-blank step attribute is parsed from the start attribute |
| Macros.StepReadFromStart | Assets/Macro/Macro.cs:376-383 | start 0, step 2, stop 10 is refused as written (step read as 0) while the intended reading loops over 0, 2, 4, 6, 8 |
| Macros.EvenIterations | Assets/Macro/Macro.cs:406-410 | a loop from 0 to 10 by 2 visits 0, 2, 4, 6, 8 |
| Macros.IterationsFirst | Assets/Macro/Macro.cs:406-410 | a loop that runs visits its start first and then continues from start + step |
| Macros.LoopLiterals | Assets/Macro/Macro.cs:355-404 | the attribute strings "i", "0", "2" and "10" read as the loop variable i and the integers 0, 2 and 10 |
| Macros.ReadsTen | Assets/Macro/Macro.cs:385-394 | the stop attribute "10" is non-blank and parses to 10 |
| Macros.ReadsDigit | Assets/Macro/Macro.cs:366-385 | a one-digit attribute parses to that digit whatever the default |
| Macros.Iterations | Assets/Macro/Macro.cs:406-410 | a loop visits no value exactly when start >= stop |
| Macros.IterationsNext | Assets/Macro/Macro.cs:406-410 | taking one more value of a loop keeps the values taken a prefix of all the loop's values |
| Macros.IterationsEnds | Assets/Macro/Macro.cs:406-410 | a loop that runs starts at the start, and its last value is below stop with the next step reaching stop |
| Macros.IterationsBounded | Assets/Macro/Macro.cs:406-410 | every visited value lies from start up to, not including, stop |
| Macros.IterationsStep | Assets/Macro/Macro.cs:406-410 | each visited value after the first is the previous one plus step |
| Macros.CheckElementAt | Assets/Macro/Macro.cs:508-545 | on success the array ID and variable are lower-cased and non-blank, the array exists and the index parses into its range; IndexOutOfRange is returned exactly when everything else is valid but the index is negative or past the end |
| Macros.CheckFormArray | Assets/Macro/Macro.cs:1702-1722 | succeeds exactly when the lower-cased ID and the delimiter are non-blank and the delimiter is one character, giving the ID and that character; a non-blank delimiter of another length is DelimiterLength |
| Macros.FormedItems | Assets/Macro/Macro.cs:1726-1733 | forming the array gives one item per piece of the expanded value split at the delimiter |
| Macros.PlainArray | Assets/Macro/Macro.cs:1726-1733 | a value without variables forms the array of its pieces, which join back to the value, and does not fail |
| Macros.MacroGroup.constructor | Assets/Macro/Macro.cs:193-196 | a new group starts with no variables, no arrays and not failed |
| Macros.MacroGroup.Fail | Assets/Macro/Macro.cs:2388-2397 | failing sets the failed flag and keeps variables and arrays |
| Macros.MacroGroup.ExpandVariable | Assets/Macro/Macro.cs:2180-2228 | returns the variable's value and sets failed exactly when the lookup fails; variables and arrays are unchanged |
| Macros.MacroGroup.ExpandVariables | Assets/Macro/Macro.cs:2053-2125 | the character loop returns the expansion's text and sets failed exactly when the expansion fails; variables and arrays are unchanged |
| Macros.MacroGroup.ForLoop | Assets/Macro/Macro.cs:355-412 | the corrected loop of the Macro.cs:379 finding, with the step read from its own attribute: a refused loop fails the group and visits nothing; otherwise it visits exactly the loop's values, and the variable ends holding the last value visited |
| Macros.MacroGroup.ForLoopAsWritten | Assets/Macro/Macro.cs:355-412 | the loop as written, with the step parsed from the start attribute: a refusal fails the group and visits nothing; otherwise it visits the loop's values, consecutive ones differing by the start value |
| Macros.MacroGroup.Iterate | Assets/Macro/Macro.cs:406-410 | the for loop visits exactly the loop's values and leaves the variable at the last one |
| Macros.MacroGroup.ElementAt | Assets/Macro/Macro.cs:508-545 | returns the checks' verdict; an error fails the group and keeps the variables; on success the variable is set to the indexed item |
| Macros.MacroGroup.ExpandPieces | Assets/Macro/Macro.cs:1728-1733 | each piece is expanded in turn, one item per piece, and the group fails exactly when some piece's expansion fails |
| Macros.MacroGroup.FormArray | Assets/Macro/Macro.cs:1702-1746 | a failing check fails the group and keeps the arrays; otherwise the array under the lower-cased ID is set to the formed items, and failed is set exactly when forming fails |
| Macros.OniomLayerIsEnum | Assets/Constants/Constants.cs:208 | the ONIOM layer enum REAL, INTERMEDIATE, MODEL with values 0, 1, 2 is a well-formed `int` enum |
| GaussianReader.DepthAppend | Assets/IO/Readers/GaussianInputReader.cs:400-418 | the bracket depth counted by the scan is additive over concatenation |
| GaussianReader.StringIndexEnclosed | Assets/IO/Readers/GaussianInputReader.cs:400-418 | the loop answers true exactly when the index is inside the string and the brackets before it do not balance; an index outside the string gives false |
| GaussianReader.InsidePair | Assets/IO/Readers/GaussianInputReader.cs:400-418 | after an opening bracket at depth 0, every position up to the end of balanced contents is enclosed |
| GaussianReader.FirstFree | Assets/IO/Readers/GaussianInputReader.cs:386-392 | the position the scan stops at is the first delimiter at depth 0 from the start position, or -1 when there is none |
| GaussianReader.PairValue | Assets/IO/Readers/GaussianInputReader.cs:380-398 | with the enclosure check the read never fails (no free delimiter gives ""); without it, a non-empty value contains no delimiter |
| GaussianReader.GetValueFromPair | Assets/IO/Readers/GaussianInputReader.cs:380-398 | the loop returns the text after the first delimiter outside brackets, or "" when none; without the check it returns the second non-empty piece, failing when there is none |
| GaussianReader.PairReadsBack | Assets/IO/Readers/GaussianInputReader.cs:380-398 | key, delimiter, value reads back as the value, with or without the enclosure check |
| GaussianReader.NoBracketsFlat | Assets/IO/Readers/GaussianInputReader.cs:400-418 | text without brackets has depth 0 |
| GaussianReader.Wrap32 | Assets/IO/Readers/GaussianInputReader.cs:425-431 | the 32-bit wrap-around of the scaled amount is a 32-bit value and leaves values in range unchanged |
| GaussianReader.DivTrunc | Assets/IO/Readers/GaussianInputReader.cs:425 | integer division truncates toward zero, as C# does for negative amounts |
| GaussianReader.ScaleToMB | Assets/IO/Readers/GaussianInputReader.cs:420-438 | an amount that does not parse fails with BadNumber; units other than KB, MB, GB and TB fail with UnknownUnits; a result is always a 32-bit value |
| GaussianReader.GetMemoryMB | Assets/IO/Readers/GaussianInputReader.cs:420-438 | a `%mem` amount fails with BadNumber exactly when its digits, spaces and minus signs do not read as a 32-bit integer, and with UnknownUnits exactly when they do but its upper-cased letters, spaces and minus signs are not KB, MB, GB or TB; a result is a 32-bit value |
| GaussianReader.AmountNumber | Assets/IO/Readers/GaussianInputReader.cs:421 | the number part of "<m><letters>" is the digits of m |
| GaussianReader.AmountUnits | Assets/IO/Readers/GaussianInputReader.cs:422 | the units part of "<m><letters>" is the letters |
| GaussianReader.MemoryReadsBack | Assets/IO/Readers/GaussianInputReader.cs:420-438 | "<m>KB" reads as m / 1024 MB, "<m>MB" as m, "<m>GB" as m * 1024 and "<m>TB" as m * 1048576, when that fits in 32 bits |
| GaussianReader.UnitsLetters | Assets/IO/Readers/GaussianInputReader.cs:422 | the four unit names are letters and already upper case |
| GaussianReader.ScaleReadsBack | Assets/IO/Readers/GaussianInputReader.cs:424-431 | each unit scales a non-negative amount by its factor, KB by integer division |
| GaussianReader.FirstAt | Assets/IO/Readers/GaussianInputReader.cs:449-462 | the recorded index is the first position holding the character at the given depth, or -1 when there is none |
| GaussianReader.OpensBefore | Assets/IO/Readers/GaussianInputReader.cs:451-453 | a prefix that has reached depth 1 contains the first opening bracket |
| GaussianReader.InParentheses | Assets/IO/Readers/GaussianInputReader.cs:440-469 | without an opening bracket the input is returned whole; an opening bracket without a closing one at depth 1 is an Unclosed error, as the source's negative Substring length |
| GaussianReader.NoneBeforeStep | Assets/IO/Readers/GaussianInputReader.cs:449-462 | one more loop step either finds the first match or extends the match-free prefix |
| GaussianReader.DepthStep | Assets/IO/Readers/GaussianInputReader.cs:449-462 | one more character changes the depth by +1 for '(', -1 for ')', 0 otherwise |
| GaussianReader.GetStringInParentheses | Assets/IO/Readers/GaussianInputReader.cs:440-469 | the loop returns the contents of the first outermost pair of parentheses as specified |
| GaussianReader.StaysInside | Assets/IO/Readers/GaussianInputReader.cs:449-462 | between the first opening bracket and the first close at depth 1 the depth stays at least 1 |
| GaussianReader.ContentsBalanced | Assets/IO/Readers/GaussianInputReader.cs:440-469 | the extracted contents are balanced: no prefix closes more than it opens, and the whole has depth 0 |
| GaussianReader.InsideFromOpening | Assets/IO/Readers/GaussianInputReader.cs:449-462 | a slice starting just inside an opening bracket never drops below depth 0 while the whole stays inside |
| GaussianReader.DepthBetween | Assets/IO/Readers/GaussianInputReader.cs:449-462 | the depth of a slice is the difference of the prefix depths |
| GaussianReader.SecondOf | Assets/IO/Readers/GaussianInputReader.cs:481-487 | the options are the second piece when there are exactly two, else empty |
| GaussianReader.MethodFromString | Assets/IO/Readers/GaussianInputReader.cs:471-491 | fails exactly when there is no non-empty piece to take the method from (the source indexes [0] of an empty split); the method is non-empty and has no '/'; a basis never comes with options, since the basis piece cannot contain '/' |
| GaussianReader.MethodAndBasis | Assets/IO/Readers/GaussianInputReader.cs:471-491 | "name/basis" reads as that method and basis with no options |
| GaussianReader.MethodAndOptions | Assets/IO/Readers/GaussianInputReader.cs:471-491 | "name=options" reads as that method with those options and no basis |
| GaussianReader.BasisOptionsLost | Assets/IO/Readers/GaussianInputReader.cs:471-491 | "name/basis/options" loses the options: the first split already cut at every '/' and the basis piece is split again |
| Clean.FirstLetter | Assets/ArrowFunctions/Clean.cs:1183-1196 | the position where the identifier starts is the first letter, every character before it is not a letter, and it is the length when there is none |
| Clean.FirstSpace | Assets/ArrowFunctions/Clean.cs:1231-1236 | the numbering point is the first space after the identifier starts, or the end |
| Clean.StrippedNumber | Assets/ArrowFunctions/Clean.cs:1178-1199 | the stripped name has 4 characters; each digit after the first letter becomes a space and every other character is kept |
| Clean.StripPDBNumber | Assets/ArrowFunctions/Clean.cs:1178-1199 | the loop over the first 4 characters builds exactly the stripped name |
| Clean.StrippedNumberIdempotent | Assets/ArrowFunctions/Clean.cs:1178-1199 | stripping numbers twice is stripping once |
| Clean.StrippedSpecial | Assets/ArrowFunctions/Clean.cs:1201-1222 | the cleaned name is padded to 4 characters |
| Clean.SpecialStep | Assets/ArrowFunctions/Clean.cs:1206-1218 | one loop step appends the character when the identifier has not started or it is a letter or digit, and drops it otherwise |
| Clean.StripPDBSpecialCharacters | Assets/ArrowFunctions/Clean.cs:1201-1222 | the loop builds exactly the cleaned name |
| Clean.StrippedSpecialShape | Assets/ArrowFunctions/Clean.cs:1201-1222 | up to and including the first letter the name is unchanged; after it only letters, digits and padding spaces remain |
| Clean.StrippedSpecialIdempotent | Assets/ArrowFunctions/Clean.cs:1201-1222 | removing special characters twice is removing them once |
| Clean.GetNumberedPDB | Assets/ArrowFunctions/Clean.cs:1224-1252 | the loop builds exactly the numbered name: the name up to the first space after the identifier, then the number, padded to 4 |
| Clean.NumberedStripsBack | Assets/ArrowFunctions/Clean.cs:1178-1252 | stripping the number from a numbered stripped name gives back the stripped name |
| Clean.DigitsStripBack | Assets/ArrowFunctions/Clean.cs:1178-1252 | digits written at the numbering point are blanked again by the stripping |
| Clean.NumberedInjective | Assets/ArrowFunctions/Clean.cs:1224-1252 | different numbers give different numbered names |
| Clean.PaddedNumbersDiffer | Assets/ArrowFunctions/Clean.cs:1235-1250 | two different numbers written after the same prefix and padded to 4 differ |
| Clean.StrippedNames | Assets/ArrowFunctions/Clean.cs:1134-1138 | one stripped name per atom |
| Clean.StrippedNamesAt | Assets/ArrowFunctions/Clean.cs:1137-1138 | the k-th stripped name is the number-stripped k-th name, 4 characters long |
| Clean.Rendered | Assets/ArrowFunctions/Clean.cs:1134-1160 | the names under a labelling keep the atom count |
| Clean.RenderedAt | Assets/ArrowFunctions/Clean.cs:1153-1158 | each name is kept or replaced by its stripped form numbered by its label |
| Clean.RenderedUpdate | Assets/ArrowFunctions/Clean.cs:1153-1158 | relabelling one atom rewrites only that atom's name |
| Clean.RenderedKept | Assets/ArrowFunctions/Clean.cs:1134-1160 | when every label is Kept the names are unchanged |
| Clean.CountIn | Assets/ArrowFunctions/Clean.cs:1140-1147 | the number of occurrences of a stripped name is at most the number of names |
| Clean.OnlyOccurrence | Assets/ArrowFunctions/Clean.cs:1151-1155 | a name read exactly once so far occurs at the first position holding it |
| Clean.AfterUnchanged | Assets/ArrowFunctions/Clean.cs:1147-1159 | reading a name that is not the first repeat of an earlier one leaves the earlier atom's label alone |
| Clean.AfterSecond | Assets/ArrowFunctions/Clean.cs:1150-1156 | when a stripped name is read the second time, its first occurrence becomes number 1 |
| Clean.AfterNewest | Assets/ArrowFunctions/Clean.cs:1147-1159 | the atom just read is kept when its stripped name is new, and otherwise numbered by its rank among the occurrences |
| Clean.FirstIndexFound | Assets/ArrowFunctions/Clean.cs:1151-1155 | the backward search for an earlier occurrence finds one when the count says there is one |
| Clean.TallySnoc | Assets/ArrowFunctions/Clean.cs:1140-1145 | reading one more name adds 1 to its count, or enters it with count 1 |
| Clean.TallyCount | Assets/ArrowFunctions/Clean.cs:1130-1147 | the count dictionary holds exactly the names read so far, each with its number of occurrences |
| Clean.AllKept | Assets/ArrowFunctions/Clean.cs:1134 | before the loop every atom keeps its name |
| Clean.Labels | Assets/ArrowFunctions/Clean.cs:1134-1160 | the loop's labelling has one label per atom |
| Clean.LabelsSecond | Assets/ArrowFunctions/Clean.cs:1150-1158 | on the second occurrence the first becomes 1 and the current one 2 |
| Clean.LabelsLater | Assets/ArrowFunctions/Clean.cs:1158 | on a later occurrence only the current atom is numbered, with the count |
| Clean.LabelsStep | Assets/ArrowFunctions/Clean.cs:1134-1160 | one loop step keeps every label equal to the declarative label after that many names |
| Clean.LabelsAfter | Assets/ArrowFunctions/Clean.cs:1134-1160 | after i names, atoms already read carry the declarative label and the rest are kept |
| Clean.Rename | Assets/ArrowFunctions/Clean.cs:1153-1158 | writing one atom's name changes that entry only |
| Clean.NumberAt | Assets/ArrowFunctions/Clean.cs:1153-1158 | numbering one atom changes that entry to its numbered stripped name and leaves every other array entry |
| Clean.NumberRepeated | Assets/ArrowFunctions/Clean.cs:1148-1159 | a repeated name numbers itself with its count and, on the second occurrence, the first occurrence with 1 |
| Clean.ReadStep | Assets/ArrowFunctions/Clean.cs:1135-1147 | the facts one iteration needs: the stripped name read, the extended prefix and the updated count dictionary |
| Clean.ReadName | Assets/ArrowFunctions/Clean.cs:1135-1159 | one iteration extends the stripped list and the count dictionary by the next name and renders the array under the labels after it |
| Clean.ReadStart | Assets/ArrowFunctions/Clean.cs:1130-1132 | before the loop nothing is read and the names are unchanged |
| Clean.RenderedUniquated | Assets/ArrowFunctions/Clean.cs:1129-1161 | the loop's final labelling renders each atom's name as its declarative unique name |
| Clean.ReadAll | Assets/ArrowFunctions/Clean.cs:1134-1160 | the loop leaves each listed atom's name as rendered under the labels after all names, and other entries unchanged |
| Clean.UniquatePDBs | Assets/ArrowFunctions/Clean.cs:1129-1161 | each listed atom whose stripped name is unique keeps its name; each atom sharing a stripped name with others gets that name numbered by its rank (1, 2, ...); other array entries are unchanged |
| Clean.SpecialNames | Assets/ArrowFunctions/Clean.cs:1167-1169 | one cleaned name per atom |
| Clean.SpecialNamesAt | Assets/ArrowFunctions/Clean.cs:1169 | the k-th cleaned name is the k-th name with special characters removed |
| Clean.HasRepeatSnoc | Assets/ArrowFunctions/Clean.cs:1170-1174 | a list has a repeat after one more name exactly when it had one or the name was already seen |
| Clean.StripName | Assets/ArrowFunctions/Clean.cs:1168-1169 | one iteration cleans atom i's name and leaves the others |
| Clean.SpecialNamesAll | Assets/ArrowFunctions/Clean.cs:1167-1175 | every listed entry holds its cleaned name |
| Clean.RemovePDBSpecialCharacters | Assets/ArrowFunctions/Clean.cs:1163-1176 | each listed atom's name has its special characters removed, other entries are unchanged, and duplicates is true exactly when two cleaned names coincide |
| AmberParameters.UpToStep | Assets/AMBER/Scripts/Parameters.cs:831-843 | one loop step extends the forward and the reverse match by one position, and a failed prefix means no full match |
| AmberParameters.TypesEquivalent | Assets/AMBER/Scripts/Parameters.cs:831-843 | the one-pass loop, front to back and back to front at once, returns true exactly when the types match forwards or fully reversed (with or without wildcards); the same loop serves stretches, bends (938-950), torsions (1092-1104) and improper torsions (1206-1220) |
| AmberParameters.AtomicEquivalent | Assets/AMBER/Scripts/Parameters.cs:768-775 | for one type, equivalence is equality, or with wildcards equality or either side being the wildcard |
| AmberParameters.EquivalentReflexive | Assets/AMBER/Scripts/Parameters.cs:831-843 | every parameter is equivalent to itself |
| AmberParameters.EquivalentSymmetric | Assets/AMBER/Scripts/Parameters.cs:831-843 | equivalence does not depend on which side asks |
| AmberParameters.EquivalentTransitive | Assets/AMBER/Scripts/Parameters.cs:831-843 | without wildcards, equivalence is transitive (equality up to reversal) |
| AmberParameters.ExactIsWild | Assets/AMBER/Scripts/Parameters.cs:847-859 | an exact match is also a match allowing wildcards |
| AmberParameters.WildcardsMatchAll | Assets/AMBER/Scripts/Parameters.cs:775 | all-wildcard types match any types of the same length |
| AmberParameters.WildNotTransitive | Assets/AMBER/Scripts/Parameters.cs:775 | with wildcards equivalence is not transitive: a type and another type both match the wildcard but not each other |
| AmberParameters.IndexOf | Assets/AMBER/Scripts/Parameters.cs:316-322 | the search returns the first position whose types are equivalent to the key, or -1 when none is |
| AmberParameters.ContainsIndex | Assets/AMBER/Scripts/Parameters.cs:309-322 | a list contains an equivalent entry exactly when the index search finds one |
| AmberParameters.AddedHolds | Assets/AMBER/Scripts/Parameters.cs:529-544 | after adding, the list holds the parameter, grows by one exactly when no equivalent entry existed, and keeps every entry not equivalent to it in place |
| AmberParameters.AddedIdempotent | Assets/AMBER/Scripts/Parameters.cs:529-544 | adding the same parameter twice is adding it once |
| AmberParameters.IndexOfAt | Assets/AMBER/Scripts/Parameters.cs:316-322 | the index search stops at the first equivalent entry |
| AmberParameters.AddedNoDuplicates | Assets/AMBER/Scripts/Parameters.cs:529-544 | adding keeps a list free of mutually equivalent entries |
| AmberParameters.MergedSnoc | Assets/AMBER/Scripts/Parameters.cs:93-111 | updating with one more entry applies that entry to the list updated so far |
| AmberParameters.MergedOneIsAdded | Assets/AMBER/Scripts/Parameters.cs:93-111 | one update entry either changes nothing or is added as Add does; it is added when it is valid (or not skipped) and either replacing is on or nothing equivalent exists |
| AmberParameters.AddedIsMerged | Assets/AMBER/Scripts/Parameters.cs:93-111 | adding a parameter is updating with it alone, replacing and not skipping invalid entries |
| AmberParameters.MergedKeeps | Assets/AMBER/Scripts/Parameters.cs:93-111 | without replacing, an update keeps every existing entry in place and only appends, at most one entry per update entry |
| AmberParameters.MergedFrom | Assets/AMBER/Scripts/Parameters.cs:93-111 | every entry after an update was already in the list or came from the update |
| AmberParameters.MergedCovers | Assets/AMBER/Scripts/Parameters.cs:93-111 | after an update every update entry not skipped as invalid has an equivalent entry in the list |
| AmberParameters.AddedKeepsCover | Assets/AMBER/Scripts/Parameters.cs:529-544 | adding never loses an existing equivalence class |
| AmberParameters.MergedNoDuplicates | Assets/AMBER/Scripts/Parameters.cs:93-111 | an update keeps a list free of mutually equivalent entries |
| AmberParameters.Parameters.constructor | Assets/AMBER/Scripts/Parameters.cs:27-35 | a new parameter set is empty |
| AmberParameters.Parameters.IsEmpty | Assets/AMBER/Scripts/Parameters.cs:501-508 | true exactly when all five lists are empty |
| AmberParameters.Parameters.AddAtomicParameter | Assets/AMBER/Scripts/Parameters.cs:529-544 | the first exactly equivalent atomic parameter is replaced, or the parameter is appended; the other lists are unchanged and the set is no longer empty |
| AmberParameters.Parameters.AddStretch | Assets/AMBER/Scripts/Parameters.cs:546-561 | the first equivalent stretch is replaced, or the stretch is appended; the other lists are unchanged |
| AmberParameters.Parameters.AddBend | Assets/AMBER/Scripts/Parameters.cs:563-578 | the first equivalent bend is replaced, or the bend is appended; the other lists are unchanged |
| AmberParameters.Parameters.AddTorsion | Assets/AMBER/Scripts/Parameters.cs:580-595 | the first equivalent torsion is replaced, or the torsion is appended; the other lists are unchanged |
| AmberParameters.Parameters.AddImproperTorsion | Assets/AMBER/Scripts/Parameters.cs:597-612 | the first equivalent improper torsion is replaced, or it is appended; the other lists are unchanged |
| AmberParameters.Parameters.UpdateAtomicParameters | Assets/AMBER/Scripts/Parameters.cs:93-111 | the loop merges the other set's atomic parameters in order: massless ones skipped when asked, new ones appended, equivalent ones replaced only when replacing; the other lists are unchanged |
| AmberParameters.Parameters.UpdateStretches | Assets/AMBER/Scripts/Parameters.cs:114-132 | the same merge for stretches, skipping those with zero equilibrium length |
| AmberParameters.Parameters.UpdateBends | Assets/AMBER/Scripts/Parameters.cs:134-152 | the same merge for bends, skipping those with zero equilibrium angle |
| AmberParameters.Parameters.UpdateTorsions | Assets/AMBER/Scripts/Parameters.cs:154-172 | the same merge for torsions, skipping those with no paths |
| AmberParameters.Parameters.UpdateImproperTorsions | Assets/AMBER/Scripts/Parameters.cs:174-192 | the same merge for improper torsions, skipping those with zero barrier height |
| AmberParameters.Parameters.UpdateParameters | Assets/AMBER/Scripts/Parameters.cs:80-87 | all five lists are merged from the other set |
| History.Save | Assets/Atoms/Scripts/GeometryHistory.cs:34-62 | after a save the step names a saved geometry, the newest, which is the one saved; a history holding at most a positive maximum still holds at most that many |
| History.Kept | Assets/Atoms/Scripts/GeometryHistory.cs:41-50 | the copies surviving a save are the saved geometries up to the step, without the oldest when the history is full; never more than before, and fewer than a positive maximum |
| History.SaveAsWritten | Assets/Atoms/Scripts/GeometryHistory.cs:41-55 | the same copies as the intended save; the step agrees with it, and is in range, exactly when the save discards no copy |
| History.UndoStep | Assets/Atoms/Scripts/GeometryHistory.cs:86-91 | the copies are unchanged; the step moves back by one exactly when it is at least 1, and otherwise nothing changes |
| History.RedoStep | Assets/Atoms/Scripts/GeometryHistory.cs:93-98 | the copies are unchanged; the step moves forward by one exactly when a newer copy exists, and otherwise nothing changes |
| History.SaveDiscardsRedo | Assets/Atoms/Scripts/GeometryHistory.cs:40-53 | a save keeps exactly the geometries up to the current step, in order, minus the oldest when the history is full, then the new copy |
| History.UndoRedoInRange | Assets/Atoms/Scripts/GeometryHistory.cs:86-98 | undo and redo leave the saved geometries alone and keep the step on one of them |
| History.UndoRedoInverse | Assets/Atoms/Scripts/GeometryHistory.cs:86-98 | a redo takes back an undo that moved, and an undo takes back a redo that moved |
| History.UndoAfterSave | Assets/Atoms/Scripts/GeometryHistory.cs:34-98 | saving and then undoing returns the step to the geometry that was current before the save, when the history was not full |
| History.SaveAsWrittenLeavesRange | Assets/Atoms/Scripts/GeometryHistory.cs:46-55 | with the copies destroyed only later, a save after an undo sets the step past the last saved geometry |
| History.SaveAsWrittenWhenFull | Assets/Atoms/Scripts/GeometryHistory.cs:41-55 | with the oldest copy destroyed only later, a save into a full history sets the step one past the newest geometry |
| History.GeometryHistory.constructor | Assets/Atoms/Scripts/GeometryHistory.cs:6-10 | a new history is empty with step 0 and holds the given geometry and bound |
| History.GeometryHistory.Initialise | Assets/Atoms/Scripts/GeometryHistory.cs:12-16 | the history is cleared and takes the given geometry and bound |
| History.GeometryHistory.ClearHistory | Assets/Atoms/Scripts/GeometryHistory.cs:18-23 | every saved geometry is discarded and the step is 0; geometry and bound are unchanged |
| History.GeometryHistory.ResetHistory | Assets/Atoms/Scripts/GeometryHistory.cs:25-32 | the history is cleared and then holds only a copy of the geometry, at step 0; without a geometry it stays empty |
| History.GeometryHistory.SaveState | Assets/Atoms/Scripts/GeometryHistory.cs:34-62 | without a geometry nothing changes; otherwise the history becomes the save of the geometry onto the old history |
| History.GeometryHistory.SaveStateAsWritten | Assets/Atoms/Scripts/GeometryHistory.cs:34-62 | the save with the step computed from the child count before the discarded copies go away |
| History.GeometryHistory.LoadState | Assets/Atoms/Scripts/GeometryHistory.cs:64-84 | a step outside the history, or no geometry, changes nothing; otherwise the geometry becomes the copy saved at that step; the history itself is unchanged |
| History.GeometryHistory.Undo | Assets/Atoms/Scripts/GeometryHistory.cs:86-91 | at step 0 nothing happens; otherwise the step goes back one and the geometry becomes the copy saved there |
| History.GeometryHistory.Redo | Assets/Atoms/Scripts/GeometryHistory.cs:93-98 | at the newest copy nothing happens; otherwise the step goes forward one and the geometry becomes the copy saved there |
| Notifications.ShowProgress | Assets/UI/Scripts/TaskBar.cs:43-47 | the bar shows the given text and ratio and is no longer idle |
| Notifications.ShowReady | Assets/UI/Scripts/TaskBar.cs:53-59 | the bar becomes idle; a bar already idle is untouched, otherwise it shows "Ready" with no progress |
| Notifications.RemoveFirst | Assets/UI/Scripts/NotificationBar.cs:149 | removing a task from the list shortens it by one when the task is in it and leaves it alone otherwise |
| Notifications.RemoveFirstDistinct | Assets/UI/Scripts/NotificationBar.cs:149 | on a list without repeats, removal keeps exactly the other elements and no repeat |
| Notifications.AppendNoRepeats | Assets/UI/Scripts/NotificationBar.cs:180-183 | appending a task not yet listed keeps the list free of repeats |
| Notifications.WithoutTaskRemovesOnly | Assets/UI/Scripts/NotificationBar.cs:145-152 | clearing a task keeps the tracker well formed, removes the task from both the list and the progress map, and keeps every other task and its progress |
| Notifications.WithProgressWellFormed | Assets/UI/Scripts/NotificationBar.cs:171-187 | reporting progress keeps the tracker well formed; the task stays tracked exactly when it is new or its ratio is below 1, then with the new ratio, and a new task is appended last |
| Notifications.ClearUndoesStart | Assets/UI/Scripts/NotificationBar.cs:145-183 | starting a new task and clearing it restores the tracker exactly |
| Notifications.RemoveFirstAppended | Assets/UI/Scripts/NotificationBar.cs:149-182 | removing a task just appended to a list without it gives the list back |
| Notifications.ShownIsNewestOrReady | Assets/UI/Scripts/NotificationBar.cs:159-169 | the task bar shows the newest active task's full name and ratio, or "Ready" with no progress when no task is active |
| Notifications.NotificationBar.constructor | Assets/UI/Scripts/NotificationBar.cs:44-65 | a new bar has no messages and no tasks |
| Notifications.NotificationBar.ErrorCount | Assets/UI/Scripts/NotificationBar.cs:34-36 | the error count is zero exactly when there is no error for ShowLastError to show |
| Notifications.NotificationBar.WarningCount | Assets/UI/Scripts/NotificationBar.cs:37-39 | the warning count is zero exactly when there is no warning to show |
| Notifications.NotificationBar.InfoCount | Assets/UI/Scripts/NotificationBar.cs:40-42 | the information count is zero exactly when there is no information message to show |
| Notifications.NotificationBar.AddError | Assets/UI/Scripts/NotificationBar.cs:121-127 | the error is appended, the error count grows by one and the error is shown as the last message; nothing else changes |
| Notifications.NotificationBar.AddWarning | Assets/UI/Scripts/NotificationBar.cs:129-135 | the warning is appended, the warning count grows by one and it is shown as a warning; nothing else changes |
| Notifications.NotificationBar.AddInfo | Assets/UI/Scripts/NotificationBar.cs:137-143 | the message is appended, the info count grows by one and it is shown as information; nothing else changes |
| Notifications.NotificationBar.ShowLastError | Assets/UI/Scripts/NotificationBar.cs:95-99 | the newest error is shown again; without errors nothing changes |
| Notifications.NotificationBar.ShowLastWarning | Assets/UI/Scripts/NotificationBar.cs:101-105 | the newest warning is shown again styled as a warning; without warnings nothing changes |
| Notifications.NotificationBar.ShowLastWarningAsWritten | Assets/UI/Scripts/NotificationBar.cs:101-105 | the newest warning is shown again but styled as an error |
| Notifications.NotificationBar.ShowLastInfo | Assets/UI/Scripts/NotificationBar.cs:107-111 | the newest information message is shown again styled as information; without any nothing changes |
| Notifications.NotificationBar.ShowLastInfoAsWritten | Assets/UI/Scripts/NotificationBar.cs:107-111 | the newest information message is shown again but styled as an error |
| Notifications.NotificationBar.UpdateTaskBar | Assets/UI/Scripts/NotificationBar.cs:159-169 | the task bar is redrawn from the tracker, which is unchanged, and stays idle-consistent |
| Notifications.NotificationBar.ClearTask | Assets/UI/Scripts/NotificationBar.cs:145-152 | the task is no longer tracked, the tracker stays well formed and the task bar is redrawn |
| Notifications.NotificationBar.SetTaskText | Assets/UI/Scripts/NotificationBar.cs:196-198 | only the task bar's text changes |
| Notifications.NotificationBar.SetTaskProgress | Assets/UI/Scripts/NotificationBar.cs:171-187 | the tracker records the progress (a ratio of 1 or more completes an active task), stays well formed, and the task bar is redrawn |
| Data.GetHash | Assets/Globals/Data.cs:317-319 | the key e0 * 255 + e1 is kept as an unsigned 32-bit value |
| Data.HashRoundTrip | Assets/Globals/Data.cs:317-319 | for every pair of elements the pair is recovered from its key |
| Data.HashInjective | Assets/Globals/Data.cs:317-319 | two element pairs with the same key are the same ordered pair |
| Data.StoreDistances | Assets/Globals/Data.cs:399-405 | a line of the distance file stores its thresholds under both the forward and the backward key and leaves every other key alone |
| Data.StoreKeepsSymmetric | Assets/Globals/Data.cs:399-405 | storing a pair keeps the table well formed and holding the same thresholds under both orders of every pair |
| Data.GetBondOrderDistanceSquared | Assets/Globals/Data.cs:445-457 | a pair missing from the table gives NONE |
| Data.BondOrderMonotonic | Assets/Globals/Data.cs:445-457 | with descending thresholds, a shorter distance never gives a lower bond order; a known pair is bonded exactly within the first threshold and triple exactly within the last |
| Data.BondOrderSymmetric | Assets/Globals/Data.cs:445-457 | on a table filled by the loader, the bond order does not depend on the order of the two elements |
| Data.Withdrawing | Assets/Globals/Data.cs:66-72 | exactly the neighbours whose element is N, O, F, S or Cl |
| Data.GetLinkType | Assets/Globals/Data.cs:459-483 | a hydrogen on oxygen is HO, on sulphur HS and on any element other than carbon H |
| Data.CarbonLinkType | Assets/Globals/Data.cs:464-476 | an aromatic (CA) host gives HA, H4 or H5, an aliphatic host HC, H1, H2 or H3; the fallback HC comes exactly from more than two on an aromatic host, and from none or more than three on an aliphatic one |
| Data.LinkTypeByWithdrawing | Assets/Globals/Data.cs:461-476 | on carbon, neighbours that do not withdraw electrons never change the hydrogen type |
| Data.AliphaticTypesDistinct | Assets/Globals/Data.cs:471-476 | an aliphatic carbon with 0, 1, 2 and 3 withdrawing neighbours gives HC, H1, H2 and H3 |
| Data.GetLinkTypeAsWritten | Assets/Globals/Data.cs:459-483 | as written, the count covers every neighbour and the third aliphatic test repeats the second, so an aliphatic carbon never gives H3 |
| Data.LinkTypeAsWrittenCountsAll | Assets/Globals/Data.cs:462-474 | an aliphatic carbon bonded to one carbon gets H1 as written but HC when only withdrawing neighbours are counted |
| Data.GetTerminalState | Assets/Globals/Data.cs:712-721 | C-terminal only when OXT is among the IDs, N-terminal only when the N-terminal ID is, standard exactly when neither is |
| Data.TerminalStateFirstWins | Assets/Globals/Data.cs:712-721 | the terminal ID that comes first decides the state |
| Data.CountCNS | Assets/Globals/Data.cs:742-753 | the one-pass counters equal the number of carbon, nitrogen and sulphur IDs |
| Data.CountElementPermutation | Assets/Globals/Data.cs:742-753 | the element counts do not depend on the order of the IDs |
| Data.Sort | Assets/Globals/Data.cs:1003-1007 | the sorted list is a permutation of the input and in ascending order |
| Data.SortedUnique | Assets/Globals/Data.cs:1003-1007 | two sorted lists with the same elements are equal, so the sort's result depends only on its elements |
| Data.IdentifiersOf | Assets/Globals/Data.cs:994-1002 | one identifier is collected for each ID of the element |
| Data.IdentifiersPermutation | Assets/Globals/Data.cs:994-1002 | the identifiers collected for an element are the same multiset for any order of the IDs |
| Data.SortedIdentifiersPermutation | Assets/Globals/Data.cs:994-1007 | the sorted per-element list is the same for any order of the IDs |
| Data.SignatureOrderIndependent | Assets/Globals/Data.cs:988-1010 | a residue signature does not depend on the order of the atom IDs |
| Data.ComputeSignature | Assets/Globals/Data.cs:988-1010 | the one-pass collection, sorting and joining gives the signature: sorted H identifiers joined, and sorted C, N, O, S identifiers joined in that order |
| Geometries.PushNeighbours | Assets/Atoms/Scripts/Geometry.cs:777-780 | pushing every neighbour one level deeper keeps each stack entry reachable from the start in its recorded depth, within the limit, and adds exactly the neighbours to the stack |
| Geometries.SearchDone | Assets/Atoms/Scripts/Geometry.cs:760-781 | once the stack is empty every atom yielded is reachable in its depth, and without a depth limit every atom reachable without passing an excluded one was yielded |
| Geometries.SearchStep | Assets/Atoms/Scripts/Geometry.cs:762-780 | one pop either skips an atom (seen, excluded, at the depth limit or missing) or yields it and pushes its neighbours, keeping the search invariant and shrinking the unseen atoms or the stack |
| Geometries.ConnectedAtomIDs | Assets/Atoms/Scripts/Geometry.cs:749-783 | each atom is yielded at most once, never an excluded or missing one, at a depth below a non-negative limit, reachable from the start in that many bonds; with no limit every atom reachable without crossing an excluded one is yielded |
| Geometries.DistanceDone | Assets/Atoms/Scripts/Geometry.cs:1128-1149 | a search without a depth limit that exhausts its stack has shown that no walk from the start ends at the target |
| Geometries.GraphDistance | Assets/Atoms/Scripts/Geometry.cs:1117-1150 | 0 for the same atom; otherwise a depth at which the target is reachable, within a non-negative limit, or -1, which with no limit means the target is unreachable; reaching an ID with no atom is the lookup failure |
| Geometries.HighestNumber | Assets/Atoms/Scripts/Geometry.cs:59-66 | the largest residue number among the chain's residues |
| Geometries.Geometry.AtomIDs | Assets/Atoms/Scripts/Geometry.cs:449-470 | the IDs of all atoms of all residues |
| Geometries.Geometry.Graph | Assets/Atoms/Scripts/Geometry.cs:449-470 | the bond graph: every atom with the set of its neighbours |
| Geometries.Geometry.GetAtom | Assets/Atoms/Scripts/Geometry.cs:449-456 | the atom of that residue and PDB ID; a missing residue or a missing atom is an error naming it |
| Geometries.Geometry.TryGetAtom | Assets/Atoms/Scripts/Geometry.cs:458-470 | the atom when its residue holds it, otherwise nothing |
| Geometries.Geometry.Unbond | Assets/Atoms/Scripts/Geometry.cs:405-411 | removes one side of a bond: the atom loses that neighbour, or the lookup fails and nothing changes |
| Geometries.Geometry.Bond | Assets/Atoms/Scripts/Geometry.cs:395-401 | records one side of a bond: the atom gains that neighbour with the bond type, or the lookup fails |
| Geometries.Geometry.Disconnect | Assets/Atoms/Scripts/Geometry.cs:404-412 | both atoms lose each other as neighbours and nothing else changes; a missing first atom is a lookup failure, and a missing second atom fails after the first has lost it |
| Geometries.Geometry.Connect | Assets/Atoms/Scripts/Geometry.cs:391-412 | NONE acts exactly as Disconnect: each atom loses only the other from its neighbours; any other type is recorded on both atoms, so the bond is symmetric, and each atom gains only the other as neighbour; a missing first atom is a lookup failure that changes nothing, and a missing second atom fails after the first has been updated |
| Geometries.Geometry.BondBoth | Assets/Atoms/Scripts/Geometry.cs:395-402 | the bond type is recorded on both atoms, each gaining only the other as neighbour; a missing second atom fails after the first has gained the bond |
| Geometries.Geometry.GetConnectedAtomIDs | Assets/Atoms/Scripts/Geometry.cs:749-783 | the search over the geometry's bond graph, with the guarantees of ConnectedAtomIDs |
| Geometries.Geometry.GetGraphDistance | Assets/Atoms/Scripts/Geometry.cs:1117-1150 | the distance search over the geometry's bond graph, with the guarantees of GraphDistance; a bond to an atom not in the geometry is the lookup failure |
| Geometries.Geometry.GetSequence | Assets/Atoms/Scripts/Geometry.cs:57-84 | over the chain's residues that are neither water nor ion: none at all is an error (no highest number); otherwise one letter per number from 0 to the highest: the residue's one-letter code, 'X' for an unknown name and '-' for a missing number |
| GaussianInput.GetKeywordItem | Assets/IO/Writers/GaussianInputWriter.cs:159-176 | the item starts with the keyword, and is the keyword alone exactly when the option list is absent or empty |
| GaussianInput.KeywordOptions | Assets/IO/Writers/GaussianInputWriter.cs:164-175 | what follows the keyword is empty exactly when there are no options, and otherwise starts with '=' |
| GaussianInput.KeywordOptionsRoundTrip | Assets/IO/Writers/GaussianInputWriter.cs:164-175 | "=o " for one option and "=(o1,o2,...)" for several read back to the options, when no option holds a comma |
| GaussianInput.KeywordItemRoundTrip | Assets/IO/Writers/GaussianInputWriter.cs:159-176 | a keyword item reads back to its keyword and its options, when the keyword holds no '=' and no option a comma |
| GaussianInput.LayerOrder | Assets/IO/Writers/GaussianInputWriter.cs:19-20 | the layers of the job, each once, highest level first |
| GaussianInput.LayersOf | Assets/IO/Writers/GaussianInputWriter.cs:181-182 | the layer stored under each ID, in the given order |
| GaussianInput.MethodItems | Assets/IO/Writers/GaussianInputWriter.cs:194 | the method item of each layer, in order |
| GaussianInput.GetMethodsItem | Assets/IO/Writers/GaussianInputWriter.cs:190-223 | with one layer the methods item is that layer's method item, which reads back to its method, basis and options; any other number of layers gives an item opening with "ONIOM(" |
| GaussianInput.OniomMethodsItem | Assets/IO/Writers/GaussianInputWriter.cs:201-221 | with several layers the methods item is "ONIOM(" then the layers' method items joined by ':' then ")" then the ONIOM options: nothing, "=o" or "(o1,o2,...)" |
| GaussianInput.OniomParts | Assets/IO/Writers/GaussianInputWriter.cs:202-219 | the ONIOM item splits back into its method items and its options |
| GaussianInput.NoLayersMethodsItem | Assets/IO/Writers/GaussianInputWriter.cs:198-204 | a job with no layers writes "ONIOM()" |
| GaussianInput.GetChargeMultiplicityString | Assets/IO/Writers/GaussianInputWriter.cs:178-188 | the loop writes "charge multiplicity " for each layer in the given order, then the line break |
| GaussianInput.ChargeMultiplicityRoundTrip | Assets/IO/Writers/GaussianInputWriter.cs:181-185 | splitting the line at spaces gives back each layer's charge and multiplicity as the (2k)-th and (2k+1)-th fields, for 32-bit values |
| GaussianInput.GeomOptionsFor | Assets/IO/Writers/GaussianInputWriter.cs:147-149 | writing connectivity puts "connectivity" into the geometry options; the existing options stay first and nothing else is added |
| GaussianInput.GeomOptionsIdempotent | Assets/IO/Writers/GaussianInputWriter.cs:147-149 | writing a second time does not add "connectivity" again |
| GaussianInput.GeomKeyword | Assets/IO/Writers/GaussianInputWriter.cs:146-152 | the calculator's geometry options gain "connectivity" when connectivity is written, and a non-empty list is written as the "geom" item and a space, which then reads back with "connectivity" among its options |
| GaussianInput.AtomsOf | Assets/IO/Writers/GaussianInputWriter.cs:27-31 | the atom IDs of one residue, in the order of its names |
| GaussianInput.EnumeratedResidues | Assets/IO/Writers/GaussianInputWriter.cs:25-32 | every atom numbered belongs to one of the residues |
| GaussianInput.NumberingKeys | Assets/IO/Writers/GaussianInputWriter.cs:23-32 | exactly the enumerated atoms get a number |
| GaussianInput.NumberingAt | Assets/IO/Writers/GaussianInputWriter.cs:23-32 | with no atom enumerated twice, the k-th atom gets number k + 1 |
| GaussianInput.NumberResidue | Assets/IO/Writers/GaussianInputWriter.cs:27-31 | the inner loop numbers a residue's atoms on from the counter and advances the counter by their count |
| GaussianInput.NumberAtoms | Assets/IO/Writers/GaussianInputWriter.cs:23-32 | the nested loops number the atoms 1, 2, ... residue by residue |
| GaussianInput.EnumeratedAscending | Assets/IO/Writers/GaussianInputWriter.cs:25-28 | with residues and names in ascending order, the atoms are enumerated in ascending atom-ID order |
| GaussianInput.AtomMapOrder | Assets/IO/Writers/GaussianInputWriter.cs:23-32 | with sorted residues and names the atom map numbers exactly the atoms 1..n, and one atom's number is below another's exactly when its atom ID sorts first |
| GaussianCalculators.NewLayer | Assets/Gaussian/Scripts/GaussianCalculator.cs:585-592 | an absent option list becomes an empty one; every other argument is kept as given |
| GaussianCalculators.OptionsSuffix | Assets/Gaussian/Scripts/GaussianCalculator.cs:609-622 | the options part is empty exactly when there are no options, and otherwise starts with '=' (one option) or '(' (several) |
| GaussianCalculators.OptionsSuffixRoundTrip | Assets/Gaussian/Scripts/GaussianCalculator.cs:609-622 | "=o" and "(o1,o2,...)" read back to the options, when several options hold no comma |
| GaussianCalculators.MethodItem | Assets/Gaussian/Scripts/GaussianCalculator.cs:603-624 | the method item starts with the method |
| GaussianCalculators.MethodItemRoundTrip | Assets/Gaussian/Scripts/GaussianCalculator.cs:603-624 | the method, then "/basis" when the basis is not empty, then the options: the item reads back to the layer's method, basis and options |
| GaussianCalculators.MethodItemInjective | Assets/Gaussian/Scripts/GaussianCalculator.cs:603-624 | two readable layers with the same method item have the same method, basis and options |
| GaussianCalculators.Descending | Assets/Gaussian/Scripts/GaussianCalculator.cs:180-181 | the layers present, each once, highest first |
| GaussianCalculators.DescendingMembers | Assets/Gaussian/Scripts/GaussianCalculator.cs:180-181 | sorting and reversing keeps exactly the layers present |
| GaussianCalculators.DescendingDistinct | Assets/Gaussian/Scripts/GaussianCalculator.cs:176-181 | a strictly descending list of layers holds no layer twice and at most three |
| GaussianCalculators.GetLayersInAtoms | Assets/Gaussian/Scripts/GaussianCalculator.cs:172-184 | the loop collects each layer that some atom is in, once, and the result lists exactly those layers, highest first |
| GaussianCalculators.OptTargetName | Assets/Constants/Constants.cs:328-331 | the target names are neither toggle, and a non-minimum target is no limit |
| GaussianCalculators.ThresholdName | Assets/Constants/Constants.cs:334-340 | the threshold names are neither toggle nor limit |
| GaussianCalculators.When | Assets/Gaussian/Scripts/GaussianCalculator.cs:89-94 | an option is added exactly when its condition holds |
| GaussianCalculators.ForceConstantOptions | Assets/Gaussian/Scripts/GaussianCalculator.cs:74-88 | no option exactly for the default estimate, otherwise one option, never a toggle or a limit |
| GaussianCalculators.RecalcOptions | Assets/Gaussian/Scripts/GaussianCalculator.cs:74-85 | recalculation is "CalcFC" below one step, "RecalcFC" every step and "RecalcFC=n" every n steps |
| GaussianCalculators.Limits | Assets/Gaussian/Scripts/GaussianCalculator.cs:62-67 | "MaxCycles=n" exactly when the step count is positive and "MaxStep=n" exactly when the step size is |
| GaussianCalculators.LaterOptimisationOptions | Assets/Gaussian/Scripts/GaussianCalculator.cs:68-88 | at most three options, for target, threshold and force constants, none a toggle or a limit |
| GaussianCalculators.LeadingOptimisationOptions | Assets/Gaussian/Scripts/GaussianCalculator.cs:62-88 | at most five options before the toggles, with the limits present exactly when positive |
| GaussianCalculators.DefaultsAddNothing | Assets/Gaussian/Scripts/GaussianCalculator.cs:62-88 | at the default settings no option comes before the toggles |
| GaussianCalculators.GaussianCalculator.constructor | Assets/Gaussian/Scripts/GaussianCalculator.cs:122-161 | a new calculator has a single default real layer, empty option lists, the title "Title", optimisation options ["NoMicro"] and no frequency options |
| GaussianCalculators.GaussianCalculator.GetOptimisationOptions | Assets/Gaussian/Scripts/GaussianCalculator.cs:60-97 | at most seven options: "MaxCycles=n" exactly when the step count is positive, "MaxStep=n" exactly when the step size is, "NoMicro" exactly when microiterations are off and "QuadMacro" exactly when quadratic macro steps are on |
| GaussianCalculators.GaussianCalculator.GetFreqOptions | Assets/Gaussian/Scripts/GaussianCalculator.cs:108-114 | "HPModes" exactly when high-precision modes are on, and nothing else |
| GaussianCalculators.GaussianCalculator.AddLayer | Assets/Gaussian/Scripts/GaussianCalculator.cs:167-170 | the layer built from the arguments replaces any layer at its level; the other settings are unchanged |
| GaussianCalculators.Toggles | Assets/Gaussian/Scripts/GaussianCalculator.cs:89-94 | appending the toggles adds each exactly when it is on and changes no other option's presence |

## Left out

- Randomness in `validate.py` (`np.random`) is an oracle parameter: a function from a position in the random stream to a natural number, and the methods return the position they reached.
- The file I/O of both Python scripts is left out: the template lines are a parameter. The console output of the searches is modelled as the returned sequence of reported scores. The solution file written by the exhaustive search is modelled as its returned last solution.
- The exhaustive search loop after `exit(0)` in `validate.py` (line 470) is dead code as written. It is modelled as a stand-alone method and never reached from the genetic search.
- ChargeSearch.Load: requires the atom-type code list to be free of duplicates, because the script's `index` lookup would otherwise pick the first duplicate.
- The final console report of the genetic search (validate.py:441-467) is left out: the scores of the last population, its best four vectors, the best vector by amber name, and each amino acid whose implied charge differs from its declared one with the summed error. It is output only and changes no state.
- The progress line that the exhaustive search prints every millionth combination (`print(count)`) is console output only. It is not among the reported scores.
- The XML template reading of `validate_bonds.py` (`ET.parse` of each residue file, validate_bonds.py:190-210) is left out: the atoms (code, PDB name, neighbour count) are a parameter. So is the declared `total_charge`, a float sum of the residues' `charge` attributes. The three tables `charge_dict`, `electrons` and `aromatics` are the constants `ChargeHalves`, `Electrons` and `AromaticHalves`. `PredictCharge` takes the charge and aromatic tables as arguments, and the script's call corresponds to passing these constants.
- The report of `process_amino_acid` (validate_bonds.py:250-268) is left out: the `charge_contributions` string of codes with their signs, the `int(predicted_charge) != int(actual_charge)` filter that decides whether to print, and the printed line. Only the predicted charge, the aromatic count and the multiplicity are modelled. The command-line driver that picks the files is left out too.
- Floating-point values (charges, distances, ratios, radii) are reals, so rounding is not modelled.
- CustomMathematics.IntPow: the 32-bit wrap-around of the result is not modelled. The unsigned cast of a negative power is modelled, because it is the behaviour that matters there.
- CustomMathematics.Binomial: the source builds the result by floating-point multiplication and division. The model returns the exact fraction (numerator and denominator) that this computes.
- The vector, matrix and force-field parts of `Mathematics.cs` are floating-point geometry and are left out.
- Data.ComputeSignature: `List.Sort` in the source uses the culture-sensitive string comparer. The model sorts by ordinal order, which agrees on the ASCII upper-case names used.
- Atoms.Compare: the source compares identifiers with the culture-sensitive `string.CompareTo`. The model uses ordinal order, which agrees with it on identifiers made of upper-case ASCII letters and digits, as PDB atom names are. The writer's `OrderBy` (`GaussianInput.AtomMapOrder`) inherits this.
- ResidueIDs.Compare: the chain IDs are compared by ordinal order, not by the culture-sensitive `string.CompareTo` of the source. The two agree on chain IDs made of upper-case ASCII letters and digits, and the writer's residue order (`GaussianInput.AtomMapOrder`) inherits this.
- Sorting in the source (Python `sorted`, LINQ `OrderBy`, `List.Sort`) is modelled by insertion into a sorted list. The model proves the orderings that are used, but not that equal keys keep their input order.
- Text is ASCII `seq<char>`: no culture-sensitive case folding and no Unicode character classes.
- Extensions.Contains: modelled for the ordinal comparison only. A null string is `None`.
- Residue neighbour updates in `ChangePDBID`/`RemoveAtom` go through the geometry. They are modelled separately, by `Residues.RetargetNeighbour` and `Geometries.Geometry.Disconnect`.
- The placement of a new proton in `AddAtomToHost` (icosphere positions, floating-point geometry) is left out. Only the naming and the atom table are modelled.
- `PDBID` strings shorter than 4 characters are rejected as in the source. Formatting of longer identifiers beyond 4 characters is not modelled.
- Clean.UniquatePDBs: requires every listed name to have at least four characters (`Readable`) and the atom indices to be distinct. The source throws `IndexOutOfRangeException` on a shorter name (Clean.cs:1184, 1207, 1232), and with a repeated index it processes that entry twice, which the model does not describe. The four-character bound is the PDB name format documented at Clean.cs:1040-1045.
- Clean.RemovePDBSpecialCharacters: the same two requires, for the same reasons.
- Clean.StrippedNumber, Clean.StripPDBNumber, Clean.StrippedSpecial, Clean.StripPDBSpecialCharacters, Clean.Numbered and Clean.GetNumberedPDB: require a name of at least four characters, where the source throws `IndexOutOfRangeException`.
- ResidueIDs.NextID: the residue number grows by one without the 32-bit wrap of `residueNumber + 1` (Residue.cs:1323) at `int.MaxValue`.
- Atoms.NextNumber: the number grows by one without the 32-bit wrap of `number + 1` (Atom.cs:419).
- Macros.Iterations: the loop variable grows by `step` without the 32-bit wrap of `i += step` (Macro.cs:406), so a loop whose last value lies within `step` of `int.MaxValue` is modelled as ending, where the source would wrap to a negative value and continue.
- Geometries.GraphDistance: the result is the depth at which the depth-first search first pops the target. That is the length of some walk to it, not necessarily the number of bonds on a shortest path, which is what the documentation at Geometry.cs:1111 promises. In the triangle a–b–c, a search from a that pops b first reports 2 for c, where the distance is 1. With a depth limit, the seen set can also hide a target that lies within the limit, so -1 means unreachable only when there is no limit. The model's neighbours are a set with no pop order, so this disagreement is stated here rather than exhibited by a lemma; the contract proves reachability at the reported depth, not minimality.
- Geometries.Geometry.GetGraphDistance: inherits the same gap from `Geometries.GraphDistance`: the reported depth is not proved to be the shortest distance.
- Geometries.Geometry.GetConnectedAtomIDs: the source adds every visited atom to the caller's `excludeList` as a side effect. The model takes the list by value and does not report that mutation.
- The other members of `Geometry` (residue removal, alignment, the layer and mesh bookkeeping) are left out. They are Unity and floating-point code.
- `writeParameters` in the Gaussian input writer is left out (it writes the AMBER parameter section).
- `GetLink0`, the other parts of `GetKeywords`, `GetAtomLine`, the connectivity lines and the file I/O of the Gaussian input writer are left out.
- `Environment.NewLine` is a parameter.
- The writer's atom map is returned rather than stored in a field.
- Method items are modelled for names without `:`, which the ONIOM route syntax reserves as a layer separator.
- `FromGaussString` (parsing Gaussian keywords back into enum values) is not modelled.
- The plain-distance bond-order lookup is not modelled separately: it is the squared-distance lookup applied to the squared distance.
- Parameters: updating a parameter set from itself (aliasing) is not modelled. The `Update*` methods require a different source object.
- `UpdateNonBonding` and the non-bonding settings of `Parameters` are left out: they are a record copy with no rule to state.
- `AtomicParameter` entries are compared by value, as a model of the class's `Equals`.
- The Unity singleton access of the notification bar, its logging, icons and pulse animation are left out.
- The coroutines `UpdateClearTask` and `UpdateTaskProgress` are left out: they are frame-timed UI polling.
- Task names are given by the `taskName` function: a parameter of the notification bar model.
- History.GeometryHistory.LoadState: without a geometry the model returns false and changes nothing, where the source's `historyGeometry.CopyTo(geometry)` (GeometryHistory.cs:83) throws on the null target. The case needs a saved copy while no geometry is set, which the model's other operations never produce, because every save requires a geometry.
- History.GeometryHistory.ResetHistory: the deferred Unity `Destroy` of the old saved geometries is not modelled. Saved states are values. As written, `SaveState("Reset")` runs before the destroyed children leave the transform, so `historyStep` ends at the old child count rather than 0. This is the same defect as the GeometryHistory.cs:41-55 row under "## Findings" (`History.GeometryHistory.SaveStateAsWritten`); the model's `ResetHistory` uses the intended save and ends at step 0.
- Macros.MacroGroup.ExpandVariables: an unterminated `${` at the end of the input is not reported as a failure, matching the source, which checks only the `$(` form there.
- The macro path variables (`CHARGES_DIR`, `SETTINGS_PATH`, `DATA_PATH`) fall back to the project path followed by `/` as written. The settings that would supply them are parameters.
- The rest of `Macro.cs` (command execution, file and geometry commands) drives the editor and is left out.

## Findings

| source | as written | input that shows it | evidently intended | confidence | as-written member | corrected member |
|---|---|---|---|---|---|---|
| Assets/Extensions/Extensions.cs:96-106 | `Map.Remove(key, value)` removes both entries without checking that `key` maps to `value` | map {1→'a', 2→'b'}, `Remove(1, 'b')`: afterwards 2 has a forward entry with no reverse entry | remove only a matching pair, keeping the two dictionaries inverse | not executed | `Extensions.RemoveMismatchBreaksInverse` (on `Extensions.Map.Remove`) | `Extensions.Map.RemovePair` |
| Assets/Extensions/Extensions.cs:134-141 | the key setter removes the reverse entry for the new value, not for the old one | map {1→'a'}, `this[1] = 'b'`: the reverse entry 'a'→1 survives | drop the old value's reverse entry | not executed | `Extensions.SetByKeyLeavesStaleEntries` (on `Extensions.Map.SetByKey`) | `Extensions.Map.Put` |
| Assets/Extensions/Extensions.cs:31-40 | the Fisher–Yates loop runs while `i > 1`, so the step at i = 1 is skipped | a two-element list is never changed, and positions 0 and 1 are never exchanged in the last step | loop while `i > 0` | not executed | `Extensions.ShuffleKeepsPairs` (on `Extensions.Shuffle`) | `Extensions.ShuffleFull`, `Extensions.ShuffleFullSwapsPairs` |
| Assets/Mathematics/Mathematics.cs:122-135 | a negative power is cast to an unsigned integer before the loop; the comment says powers ≤ 0 give 1 | `IntPow(0, -1)` gives 0 and `IntPow(-1, -1)` gives -1 | 1 for every power ≤ 0 | not executed | `CustomMathematics.NegativePowerIsNotOne` (on `CustomMathematics.IntPow`) | `CustomMathematics.IntPowClamped` |
| Assets/Macro/Macro.cs:379 | the loop step is parsed from the start argument | `i, 0, 2, 10` fails with a non-positive step | step 2, visiting 0, 2, 4, 6, 8 | not executed | `Macros.StepReadFromStart` (on `Macros.ParseLoopAsWritten`), `Macros.MacroGroup.ForLoopAsWritten` | `Macros.ParseLoop`, `Macros.MacroGroup.ForLoop` |
| Assets/Atoms/Scripts/Residue.cs:424-432 | `ChangePDBID` rewrites the neighbour's internal connections even when the neighbour is in another residue | a neighbour in another residue keeps its external connection to the old name | rewrite the external connection for external neighbours | not executed | `Residues.RetargetAsWrittenMissesExternal` (on `Residues.RetargetNeighbourAsWritten`) | `Residues.RetargetNeighbour` |
| Assets/Globals/Data.cs:461-476 | `Select(...).Count()` counts all neighbours, not the electron-withdrawing ones (N, O, F, S, Cl), and the third aliphatic test repeats `== 2` | an aliphatic carbon whose only neighbour is a carbon gets H1 (intended: HC); no input ever gets H3 | count the electron-withdrawing neighbours (`Where`, not `Select`); test 1, 2, 3 | not executed | `Data.LinkTypeAsWrittenCountsAll` (on `Data.GetLinkTypeAsWritten`), `Residues.Residue.AddProtonAsWritten` | `Data.GetLinkType`, `Data.AliphaticTypesDistinct`, `Residues.Residue.AddProton` |
| Assets/Atoms/Scripts/GeometryHistory.cs:41-55 | the new step is read from the child count while the discarded states are destroyed only at the end of the frame | states [a, b, c] at step 0, saving g: the list is [a, g] and the step is 3 | the step is the index of the newest state | not executed | `History.SaveAsWrittenLeavesRange`, `History.SaveAsWrittenWhenFull` (on `History.GeometryHistory.SaveStateAsWritten`) | `History.GeometryHistory.SaveState`, `History.Save` |
| Assets/UI/Scripts/NotificationBar.cs:104,110 | `ShowLastWarning` and `ShowLastInfo` show the last warning and the last information message styled as an error | one warning "w": `ShowLastWarning` shows "w" styled as an error | show the last warning as a warning and the last info message as information | not executed | `Notifications.NotificationBar.ShowLastWarningAsWritten`, `Notifications.NotificationBar.ShowLastInfoAsWritten` | `Notifications.NotificationBar.ShowLastWarning`, `Notifications.NotificationBar.ShowLastInfo` |
