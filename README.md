# EnzymeML suite: a verified model of the document engine

This project models the core of the EnzymeML suite desktop application in
Dafny. The Rust side (`src-tauri`) keeps one EnzymeML document in shared
state and offers Tauri commands over it. The TypeScript side holds small
pure helpers that the interface uses to display and edit that document.

The model covers:

- **The equation and parameter engine** (`equations.rs`). It covers three
  parts. ODE derivation rebuilds the right-hand side of each ODE equation
  from the stoichiometry-signed kinetic laws of the reactions. Parameter
  reconciliation creates a parameter for every free symbol of an equation,
  or recalls a retired one from the buffer. Parameter cleanup retires
  parameters that no equation mentions into a recall buffer of ten entries.
- **The Tauri commands around it**: id allocation, parameter creation, the
  by-id sequence operations, the batch adds of small molecules, proteins,
  vessels and reactions, species listing, measurements, unit tables and
  unit groups, database record conversions, the Jupyter session list and
  the Python installation logic.
- **The frontend helpers**:
  - the selection handover after a delete;
  - the keyboard shortcut matcher;
  - the LaTeX and species-id string helpers;
  - parameter-table formatting;
  - reaction SMILES;
  - the kinetic-law catalogue and its colouring;
  - the validation status.

The model has one module per source file. Shared data lives in
`enzymeml.dfy`. `Option`, `Result` and `Outcome` live in `wrappers.dfy`;
`Outcome` records a Rust panic as a value. Sequence and string helpers live
in `seqs.dfy` and `text.dfy`. State that the Rust code mutates behind a
`Mutex` is a class in `states.dfy` (`EnzymeMLState`, `JupyterState`).

A command that takes that state is a method with `modifies st`. Its
`ensures` ties the new state and the result to a pure function of the old
state, for example `Equations.Process` or `Equations.Derive`. Lemmas then
prove, about those functions, the properties the code promises.

Foreign code appears as parameters:

- the expression parser, `parse: string -> Option<seq<string>>`: the free
  symbols of a text, or `None` when it does not parse;
- the `f64` formatter, `fmt: real -> string`;
- the reply of a backend command;
- the outcome of killing a child process;
- the URL found in a Jupyter output line.

Stoichiometries are `real`. Only their sign, the test `|c| == 1` and their
rendering through `fmt` matter.

## Model

| member | source | states |
|---|---|---|
| Derivation.HasSpeciesIdSpec | src-tauri/src/actions/equations.rs:298-304 | A reaction mentions a species iff some reactant or product carries its id. |
| Derivation.FindElement | src-tauri/src/actions/equations.rs:265-276 | The search finds nothing iff no element has the id; a hit is an element with that id. |
| Derivation.SignedStoichiometry | src-tauri/src/actions/equations.rs:265-279 | The coefficient is minus the first matching reactant's stoichiometry. The reactant case wins. Otherwise it is the first matching product's. |
| Derivation.DerivePart | src-tauri/src/actions/equations.rs:260-288 | A part exists iff the reaction has a kinetic law. It carries the signed coefficient and the law text, and `negative` is coefficient < 0. |
| Derivation.PartSign | src-tauri/src/actions/equations.rs:265-286 | A reactant with a positive coefficient gives a negative part. A product-only species with a non-negative one gives a positive part. |
| Derivation.PartOf | src-tauri/src/actions/equations.rs:180-185 | One reaction adds at most one part. |
| Derivation.PartsFor | src-tauri/src/actions/equations.rs:178-185 | The collected parts number at most the reactions. |
| Derivation.PartsForCount | src-tauri/src/actions/equations.rs:180-185 | When every reaction has a law, there is exactly one part per reaction that mentions the species. |
| Derivation.PartsForSource | src-tauri/src/actions/equations.rs:180-185 | Every part is the derived part of some reaction that mentions the species. |
| Derivation.SortBySignPermutation | src-tauri/src/actions/equations.rs:187 | Sorting by `negative` is a permutation of the parts. |
| Derivation.SortBySignSorted | src-tauri/src/actions/equations.rs:187 | After the sort no negative part precedes a positive one. |
| Derivation.SortBySignStable | src-tauri/src/actions/equations.rs:187 | The sort is stable: each sign group keeps its reaction order. |
| Derivation.Wrapped | src-tauri/src/actions/equations.rs:229-233 | A law is parenthesised iff its text contains `+` or `-`. |
| Derivation.AssembleConcat | src-tauri/src/actions/equations.rs:227-250 | Assembling `a + b` is assembling `a` and then one later term per part of `b`. |
| Derivation.AssembleEquation | src-tauri/src/actions/equations.rs:224-252 | The loop builds the text as the code writes it: the first term, then each later term with the sign and the signed coefficient, in order. |
| Derivation.PushDerivedPart | src-tauri/src/actions/equations.rs:281-287 | The derived part, if any, is appended to the parts list. |
| Derivation.CollectParts | src-tauri/src/actions/equations.rs:178-185 | The inner reaction loop collects exactly `PartsFor`: one part per mentioning reaction with a law, in order. |
| Derivation.DerivedTextOrder | src-tauri/src/actions/equations.rs:178-188 | With a positive part, the derived text as written is the positive parts assembled, followed by one as-written later term per negative part, each starting with ` - `. |
| Derivation.LaterTermSign | src-tauri/src/actions/equations.rs:243-248 | In both the written and the corrected layout, a later term starts with ` - ` for a negative part and with ` + ` otherwise. |
| Derivation.UnitCoefficientOmitted | src-tauri/src/actions/equations.rs:235-245 | With `abs(c) == 1`, no number is written. The first term is an optional `-` and the law. A later term is the sign and the law, the same in both layouts. |
| Derivation.AssembledEmpty | src-tauri/src/actions/equations.rs:225-251 | An empty part list yields "" in both layouts. |
| Derivation.AsWrittenDoublesSign | src-tauri/src/actions/equations.rs:247 | As written, a negative non-unit later part renders as ` - -c*law`. |
| Derivation.LaterTermSingleSign | src-tauri/src/actions/equations.rs:243-248 | In the corrected layout a later term has exactly one sign, and sign times magnitude is the coefficient. |
| Derivation.AsWrittenIsIntendedWithoutNegativeCoefficients | src-tauri/src/actions/equations.rs:240-248 | When no later part has a negative non-unit coefficient, the written text equals the corrected one; the two differ only through such parts. |
| Derivation.ExampleParts | src-tauri/src/actions/equations.rs:178-185 | A species that is a reactant (coefficient 2) of one reaction and a product (coefficient 1) of another gets parts (-2, k1*S) and (1, k2*E). |
| Derivation.ExampleSort | src-tauri/src/actions/equations.rs:187 | A negative then a positive part sort to positive first. |
| Derivation.WorkedExample | src-tauri/src/actions/equations.rs:178-252 | In the worked example the code derives `k2*E - -2*k1*S`; the corrected layout would give `k2*E - 2*k1*S`. |
| Equations.Process | src-tauri/src/actions/equations.rs:314-338 | `process_equation` changes only the parameters and the buffer, and a parse failure changes nothing. |
| Equations.ProcessEquation | src-tauri/src/actions/equations.rs:314-338 | The command's new document, buffer and result are those of `Process` on the old state. |
| Equations.BoundIgnoresParameters | src-tauri/src/actions/equations.rs:371-390 | The bound variables do not depend on the parameter list. |
| Equations.CleanupEffect | src-tauri/src/actions/equations.rs:396-410 | Cleanup changes only the parameters and the buffer. When an equation fails to parse it panics, before anything changes. |
| Equations.RetireUnreferenced | src-tauri/src/actions/equations.rs:400-407 | The loop moves exactly the unreferenced parameters to the buffer, in order, and notes their ids for removal. |
| Equations.CleanupParameters | src-tauri/src/actions/equations.rs:396-410 | The command's new state and outcome are those of `CleanupEffect` on the old state. |
| Equations.CleanupEffectSpec | src-tauri/src/actions/equations.rs:396-410 | After a cleanup that does not panic, every live parameter is referenced by an equation, and covered symbols stay covered. |
| Equations.ListEquations | src-tauri/src/actions/equations.rs:31-40 | One (species id, type) pair per equation, in document order. |
| Equations.GetEquation | src-tauri/src/actions/equations.rs:107-109 | An equation with that species id, or Err("{id} not found") iff there is none. |
| Equations.CreateEquation | src-tauri/src/actions/equations.rs:77-96 | Appends one blank Assignment equation for species "" and changes nothing else. |
| Equations.CreateThenGet | src-tauri/src/actions/equations.rs:84-90 | Right after creation, with no other equation for "", `get_equation("")` returns the blank equation. |
| Equations.Update | src-tauri/src/actions/equations.rs:52-66 | A missing species panics with nothing changed. Otherwise the equation is replaced before reconciling and cleanup. |
| Equations.UpdateEquation | src-tauri/src/actions/equations.rs:52-66 | The command's new state and outcome are those of `Update` on the old state. |
| Equations.UpdateInvariant | src-tauri/src/actions/equations.rs:57-60 | After a successful update, every live parameter is referenced and every symbol of the new equation is bound or a live parameter. |
| Equations.Delete | src-tauri/src/actions/equations.rs:121-134 | A missing species panics with nothing changed. Otherwise the equation is removed, then cleanup runs. |
| Equations.DeleteEquation | src-tauri/src/actions/equations.rs:121-134 | The command's new state and outcome are those of `Delete` on the old state. |
| Equations.DeleteInvariant | src-tauri/src/actions/equations.rs:126-128 | After a successful delete, every live parameter is referenced by a remaining equation. |
| Equations.ProcessCovers | src-tauri/src/actions/equations.rs:323-335 | A successful reconcile covers every symbol of the equation and never loses a live id. |
| Equations.ProcessGrows | src-tauri/src/actions/equations.rs:326-335 | Reconciling only adds live parameter ids. |
| Equations.Rewrite | src-tauri/src/actions/equations.rs:173-189 | Only ODE equations are rewritten, to the derived text as the code writes it; species and type are kept. |
| Equations.RewriteAll | src-tauri/src/actions/equations.rs:173-189 | Each equation is rewritten in place, and the count is unchanged. |
| Equations.RewriteEquation | src-tauri/src/actions/equations.rs:174-188 | One pass of the loop (collect, sort, assemble as written) produces `Rewrite` of the equation. |
| Equations.RewriteOdes | src-tauri/src/actions/equations.rs:173-189 | The `iter_mut` loop produces `RewriteAll`. |
| Equations.CheckReactions | src-tauri/src/actions/equations.rs:160-168 | No reactions gives "No reactions found", and a reaction with no law gives "Not all reactions have a rate equation". The checks pass iff neither holds. |
| Equations.ProcessAll | src-tauri/src/actions/equations.rs:202-204 | The reconcile loop over the ODE snapshot changes only parameters and buffer. |
| Equations.ProcessOdes | src-tauri/src/actions/equations.rs:202-204 | The loop stops at the first error and leaves the state `ProcessAll` gives. |
| Equations.ProcessAllCovers | src-tauri/src/actions/equations.rs:202-204 | A successful loop covers every processed equation and only adds live ids. |
| Equations.DeriveFromReactions | src-tauri/src/actions/equations.rs:148-215 | The command's new state and outcome are those of the `Derive` transaction on the old state. |
| Equations.DeriveFailsEarly | src-tauri/src/actions/equations.rs:160-168 | An empty reaction list, or a reaction without a law, returns its error and changes nothing. |
| Equations.DeriveRewritesOdes | src-tauri/src/actions/equations.rs:170-190 | Once the checks pass, only equation texts and parameters change. Each ODE gets its derived text as written, and others are kept. |
| Equations.PassThenCleanup | src-tauri/src/actions/equations.rs:202-208 | Reconciling the ODEs and then cleaning up leaves every ODE covered and every live parameter referenced. |
| Equations.DeriveInvariant | src-tauri/src/actions/equations.rs:148-215 | After a successful derivation, every ODE's symbols are bound or live, and every live parameter is referenced. |
| Reconciler.IdSet | src-tauri/src/actions/equations.rs:324 | `exist_params` is exactly the set of live parameter ids. |
| Reconciler.BoundVariables | src-tauri/src/actions/equations.rs:371-390 | `extract_variables` is exactly the species ids plus the Assignment/InitialAssignment targets. |
| Reconciler.NewParameter | src-tauri/src/actions/equations.rs:355-360 | A fresh parameter has id = name = symbol and no values or bounds. |
| Reconciler.FindInBuffer | src-tauri/src/actions/equations.rs:352 | The lookup finds nothing iff no buffered entry has the id; a hit is a buffered entry with that id. |
| Reconciler.CreateOrFromBuffer | src-tauri/src/actions/equations.rs:348-362 | The result has the symbol as id. It is the first buffered entry when there is one, else a fresh parameter. |
| Reconciler.WithoutId | src-tauri/src/actions/equations.rs:333 | `retain` keeps exactly the entries with another id. |
| Reconciler.Reconcile | src-tauri/src/actions/equations.rs:314-338 | It fails iff the text does not parse, with "Could not parse equation". |
| Reconciler.AddUnboundPrefix | src-tauri/src/actions/equations.rs:326-335 | The live parameters before the pass stay in place, at the front. |
| Reconciler.AddUnboundAddsOnlyUnbound | src-tauri/src/actions/equations.rs:326-335 | Every appended parameter is for a symbol that is neither bound nor in `exist_params`. |
| Reconciler.AddUnboundCovers | src-tauri/src/actions/equations.rs:326-335 | Afterwards every symbol is bound, was live, or has a live parameter. |
| Reconciler.AddUnboundBuffer | src-tauri/src/actions/equations.rs:326-335 | The buffer loses exactly the entries whose id got a parameter. |
| Reconciler.AddUnboundNoop | src-tauri/src/actions/equations.rs:326-335 | When every symbol is bound or live, nothing changes. |
| Reconciler.FindWithoutOther | src-tauri/src/actions/equations.rs:326-335 | Removing entries of another id does not change what a later lookup finds. |
| Reconciler.AddUnboundRestores | src-tauri/src/actions/equations.rs:326-353 | A symbol that gets a parameter while buffered gets the buffered parameter back, values and all. |
| Reconciler.AddUnboundUnique | src-tauri/src/actions/equations.rs:326-335 | With distinct symbols, none of the added ones already live, parameter ids stay unique. |
| Reconciler.AddUnboundDisjoint | src-tauri/src/actions/equations.rs:326-335 | Reconciling keeps live and buffered ids apart. |
| Reconciler.ReconcileIdempotent | src-tauri/src/actions/equations.rs:323-335 | Reconciling the same text twice is reconciling once. |
| Reconciler.ReconcileMichaelisMenten | src-tauri/src/actions/equations.rs:314-338 | `Vmax*S/(Km+S)` with species `S` appends exactly the fresh parameters `Vmax` and `Km`, in that order. |
| Reconciler.AllSymbolsSpec | src-tauri/src/actions/equations.rs:432-439 | The sweep succeeds iff every equation parses. It then holds exactly the symbols of the equations. |
| Reconciler.MoveToBuffer | src-tauri/src/actions/equations.rs:417-423 | Push, then drop the oldest past ten. The new entry is last, a buffer of at most ten stays at most ten, and a short buffer just grows. |
| Reconciler.LastTen | src-tauri/src/actions/equations.rs:417-423 | The retained window holds at most ten entries. |
| Reconciler.PushAllLastTen | src-tauri/src/actions/equations.rs:417-423 | Retiring in sequence keeps exactly the ten most recent entries, oldest first. |
| Reconciler.ElevenRetired | src-tauri/src/actions/equations.rs:417-423 | Eleven parameters retired into an empty buffer leave the last ten; the first is gone. |
| Reconciler.Cleanup | src-tauri/src/actions/equations.rs:396-410 | The sweep panics iff some equation does not parse. |
| Reconciler.CleanupKeepsReferenced | src-tauri/src/actions/equations.rs:402-409 | The live parameters left are exactly the referenced ones, in original order. |
| Reconciler.CleanupBuffer | src-tauri/src/actions/equations.rs:402-407 | The buffer receives the unreferenced parameters in order and keeps the last ten. |
| Reconciler.CleanupMembers | src-tauri/src/actions/equations.rs:402-409 | Survivors are referenced live parameters. Buffered entries were buffered before or were just retired. |
| Reconciler.CleanupDisjoint | src-tauri/src/actions/equations.rs:396-410 | Cleanup keeps live and buffered ids apart. |
| Reconciler.RetiredIsBuffered | src-tauri/src/actions/equations.rs:396-423 | A parameter retired in a cleanup of at most ten retirements is what the buffer lookup finds. |
| Reconciler.RetireThenRestore | src-tauri/src/actions/equations.rs:326-409 | A retired parameter comes back, values and all, when an equation mentions its symbol again. |
| Ids.CandidateInjective | src-tauri/src/actions/utils.rs:16 | Different counters give different candidate ids `prefix ++ k`. |
| Ids.SmallestFree | src-tauri/src/actions/utils.rs:15-21 | The counter the loop stops at is the smallest at or above the start whose candidate is free. |
| Ids.FreshId | src-tauri/src/actions/utils.rs:14-22 | The id is not among `ids`, and it is `prefix ++ k` for a k whose smaller candidates are all taken. |
| Ids.FreshIdUnique | src-tauri/src/actions/utils.rs:15-21 | The smallest free candidate is the one chosen. |
| Ids.FreshIdFirst | src-tauri/src/actions/utils.rs:16-17 | When `prefix1` is free it is returned. |
| Ids.GenerateId | src-tauri/src/actions/utils.rs:14-22 | The `while` loop, including its re-test of k = 1, returns `FreshId(ids, prefix)`. Its variant is bounded by `|ids|`. |
| Ids.BatchIds | src-tauri/src/actions/smallmols.rs:88-112 | A batch of n objects receives n ids. |
| Ids.BatchIdsFresh | src-tauri/src/actions/smallmols.rs:88-112 | Batch ids are pairwise distinct and disjoint from the existing ids. |
| Ids.BatchOfOne | src-tauri/src/actions/smallmols.rs:99-106 | A batch of one receives what `generate_id` alone would give. |
| Ids.AssignIds | src-tauri/src/actions/smallmols.rs:99-110 | The map closure gives each object the next batch id, in input order, while growing `existing_ids`. It returns those ids. |
| Ids.WithKeys | src-tauri/src/actions/smallmols.rs:99-110 | Each object of the batch is the input object with its id set, position by position. |
| Ids.BatchReadable | src-tauri/src/actions/smallmols.rs:99-112 | After a batch is appended, reading any new object's id returns that object. |
| Parameters.ListParameters | src-tauri/src/actions/parameters.rs:9-14 | The parameter ids in document order. |
| Parameters.Created | src-tauri/src/actions/parameters.rs:17-34 | A taken id leaves the list unchanged. Otherwise exactly one parameter with id = name = symbol is appended, and the others are unchanged. |
| Parameters.CreateParameter | src-tauri/src/actions/parameters.rs:17-39 | The command changes only the parameter list, as `Created` says; the buffer is untouched. |
| Parameters.CreatedUnique | src-tauri/src/actions/parameters.rs:21-34 | Unique parameter ids stay unique, and the name is then a parameter id. |
| Parameters.CreatedIdempotent | src-tauri/src/actions/parameters.rs:21-23 | Creating the same name twice is creating it once. |
| ByIdMacros.GetById | src-tauri/src/actions/macros.rs:17-26 | The result is the first element with the id, or Err("{id} not found") iff there is none. |
| ByIdMacros.DeleteById | src-tauri/src/actions/macros.rs:29-35 | The first element with the id is removed and the rest keep their order. With no match it panics with "Item not found". |
| ByIdMacros.UpdateById | src-tauri/src/actions/macros.rs:38-44 | The first element with the data's id is replaced and everything else is kept. With no match it panics with "Item not found". |
| ByIdMacros.GetAfterUpdate | src-tauri/src/actions/macros.rs:17-44 | Reading an updated id returns the new data. |
| ByIdMacros.GetAfterDelete | src-tauri/src/actions/macros.rs:17-35 | With unique ids, a deleted id can no longer be read, and every other id reads as before. |
| ByIdMacros.GetAfterAppend | src-tauri/src/actions/macros.rs:17-26 | An element appended under a new id is what a read of that id returns. |
| ByIdMacros.GetAfterAppendAll | src-tauri/src/actions/macros.rs:17-26 | Elements appended under new, pairwise distinct ids can each be read back. |
| ByIdMacros.GetByIdSnoc | src-tauri/src/actions/macros.rs:21-24 | On a list extended at the end, earlier elements take precedence. |
| EnzmlDoc.SmallMoleculeIds | src-tauri/src/actions/enzmldoc.rs:86-88 | The small-molecule ids in document order. |
| EnzmlDoc.ProteinIds | src-tauri/src/actions/enzmldoc.rs:89 | The protein ids in document order. |
| EnzmlDoc.ComplexIds | src-tauri/src/actions/enzmldoc.rs:90 | The complex ids in document order. |
| EnzmlDoc.SpeciesIds | src-tauri/src/actions/enzmldoc.rs:85-92 | One id per small molecule, protein and complex; an id is listed iff some species of the three kinds has it. |
| EnzmlDoc.PairsMatchIds | src-tauri/src/actions/enzmldoc.rs:141-160 | The (id, name) pairs list the species ids position by position, in the same order. |
| EnzmlDoc.GetSpeciesName | src-tauri/src/actions/enzmldoc.rs:116-132 | A hit is the name of the first (id, name) pair with the id, in small-molecule, protein, complex order. A miss is Err("Species with ID {id} not found"). |
| EnzmlDoc.GetSpeciesNameFound | src-tauri/src/actions/enzmldoc.rs:123-131 | A name is found iff the id is a species id of the document. |
| EnzmlDoc.GetSpeciesNameFirstSmallMolecule | src-tauri/src/actions/enzmldoc.rs:126-129 | The first small molecule's id reports its name, since it comes first in the search. |
| EnzmlDoc.NonConstantSpeciesIdsSpec | src-tauri/src/actions/enzmldoc.rs:171-186 | An id is reported iff it belongs to a non-constant small molecule or protein; complexes never are. |
| EnzmlDoc.SetTitle | src-tauri/src/actions/enzmldoc.rs:22-38 | `doc.name` and the state title both become the title. An event failure is reported after the change. |
| EnzymeML.EmptyDocument | src-tauri/src/actions/enzmldoc.rs:49 | A document built from a name alone has that name and no species, reactions, equations or parameters. |
| SmallMols.SetSmallMoleculeId | src-tauri/src/actions/smallmols.rs:67 | Setting the id changes the id and nothing else. |
| SmallMols.AddSmallMol | src-tauri/src/actions/smallmols.rs:53-72 | The molecule is appended under `generate_id` over the small-molecule ids, and that id is returned; nothing else changes. |
| SmallMols.AddSmallMolReadable | src-tauri/src/actions/smallmols.rs:59-68 | The added molecule's id was not in use, and reading it back returns the molecule. |
| SmallMols.AddSmallMols | src-tauri/src/actions/smallmols.rs:83-113 | Each molecule gets the next batch id. They are appended in input order and the ids returned. |
| SmallMols.AddSmallMolsSpec | src-tauri/src/actions/smallmols.rs:88-112 | The batch ids are one per input, pairwise distinct and new, and each reads back its molecule. |
| SmallMols.NewSmallMolecule | src-tauri/src/actions/smallmols.rs:27-29 | A created molecule is named "New Small Molecule" and is not constant; the other fields are the builder's defaults. |
| SmallMols.CreateSmallMol | src-tauri/src/actions/smallmols.rs:25-42 | The new molecule is appended under the next free "s" id. No equation is added. |
| SmallMols.ListSmallMols | src-tauri/src/actions/smallmols.rs:153-162 | One (id, name) pair per molecule, in document order. |
| SmallMols.SmilesOf | src-tauri/src/actions/smallmols.rs:186-188 | A molecule's listed SMILES is its canonical SMILES, or "NO_SMILES" when it has none. |
| SmallMols.SmilesMapKeys | src-tauri/src/actions/smallmols.rs:178-192 | The map's keys are exactly the molecules' ids. |
| SmallMols.SmilesMapValue | src-tauri/src/actions/smallmols.rs:178-192 | An id's value is the SMILES of its last molecule in the list, since `collect` keeps the last pair. |
| SmallMols.DeleteSmallMol | src-tauri/src/actions/smallmols.rs:226-241 | The command's outcome and new document are those of removing the molecule, then the equation with that species id. |
| SmallMols.DeleteSmallMolSpec | src-tauri/src/actions/smallmols.rs:232-236 | With unique ids, a successful delete removes the molecule and its equation and keeps every other molecule. A missing molecule panics with nothing changed. A missing equation panics after the molecule is gone. |
| Proteins.SetProteinId | src-tauri/src/actions/proteins.rs:19-33 | Setting the id changes the id and nothing else. |
| Proteins.AddProtein | src-tauri/src/actions/proteins.rs:19-34 | The protein is appended under `generate_id` over the protein ids, and that id is returned. |
| Proteins.AddProteinReadable | src-tauri/src/actions/proteins.rs:24-33 | The added protein's id was not in use, and reading it back returns the protein. |
| Proteins.AddProteins | src-tauri/src/actions/proteins.rs:45-75 | Each protein gets the next batch id. They are appended in input order and the ids returned. |
| Proteins.AddProteinsSpec | src-tauri/src/actions/proteins.rs:50-74 | The batch ids are one per input, pairwise distinct and new, and each reads back its protein. |
| Proteins.NewProtein | src-tauri/src/actions/proteins.rs:87-89 | A created protein is named "New Protein" and is constant. |
| Proteins.CreateProtein | src-tauri/src/actions/proteins.rs:86-96 | The new protein is appended under the next free "p" id. |
| Proteins.ListProteins | src-tauri/src/actions/proteins.rs:128-137 | One (id, name) pair per protein, in document order. |
| Proteins.DeleteProtein | src-tauri/src/actions/proteins.rs:162-173 | Only the protein is removed; equations are untouched. A missing id panics with "Item not found" and nothing changed. |
| Vessels.VesselIds | src-tauri/src/actions/vessels.rs:29-33 | The vessel ids in document order. |
| Vessels.SetVesselId | src-tauri/src/actions/vessels.rs:23-40 | Setting the id changes the id and nothing else. |
| Vessels.AddVessel | src-tauri/src/actions/vessels.rs:23-41 | The vessel is appended under `generate_id` over the vessel ids, and that id is returned. |
| Vessels.AddVesselReadable | src-tauri/src/actions/vessels.rs:28-35 | The added vessel's id was not in use, and reading it back returns the vessel. |
| Vessels.AddVessels | src-tauri/src/actions/vessels.rs:52-84 | Each vessel gets the next batch id. They are appended in input order and the ids returned. |
| Vessels.AddVesselsSpec | src-tauri/src/actions/vessels.rs:57-78 | The batch ids are one per input, pairwise distinct and new, and each reads back its vessel. |
| Vessels.NewVessel | src-tauri/src/actions/vessels.rs:100-103 | A created vessel is "New Vessel" with volume 1.0 and the millilitre unit. |
| Vessels.CreateVessel | src-tauri/src/actions/vessels.rs:99-111 | The new vessel is appended under the next free "v" id. The `get_unit("ml")` it unwraps succeeds with millilitre. |
| Vessels.ListVessels | src-tauri/src/actions/vessels.rs:151-160 | One (id, name) pair per vessel, in document order. |
| Reactions.ReactionIds | src-tauri/src/actions/reactions.rs:56-63 | The reaction ids in document order. |
| Reactions.LawEffect | src-tauri/src/actions/reactions.rs:197-207 | No law means Ok with nothing changed; a law is run through `process_equation`. |
| Reactions.ProcessKineticLaw | src-tauri/src/actions/reactions.rs:197-207 | The command's new state and result are those of `LawEffect` on the old state. |
| Reactions.LawsEffect | src-tauri/src/actions/reactions.rs:66-80 | Processing the batch's laws changes only the parameters and the buffer. |
| Reactions.SetReactionId | src-tauri/src/actions/reactions.rs:77 | Setting the id changes the id and nothing else. |
| Reactions.AddReactions | src-tauri/src/actions/reactions.rs:51-86 | The command's new state and result are those of `AddReactionsEffect` on the old state. |
| Reactions.AddReactionsSpec | src-tauri/src/actions/reactions.rs:56-85 | A failed law adds no reaction. Otherwise there is one reaction per input, in order, under distinct new ids, each readable. |
| Reactions.UpdateReaction | src-tauri/src/actions/reactions.rs:119-132 | The command's new state and outcome are those of `UpdateReactionEffect`. |
| Reactions.UpdateReactionSpec | src-tauri/src/actions/reactions.rs:125-127 | A law that fails to parse leaves everything unchanged. A successful update reads back as the new reaction. |
| Reactions.NewReaction | src-tauri/src/actions/reactions.rs:98-100 | A created reaction is "New Reaction" and not reversible. |
| Reactions.CreateReaction | src-tauri/src/actions/reactions.rs:97-107 | The new reaction is appended under the next free "r" id. |
| Reactions.CreatedReactionReadable | src-tauri/src/actions/reactions.rs:97-107 | The created reaction's id was unused, and reading it back returns the reaction. |
| Reactions.ListReactions | src-tauri/src/actions/reactions.rs:142-151 | One (id, name) pair per reaction, in document order. |
| Measurements.MeasurementIds | src-tauri/src/actions/measurements.rs:13 | The measurement ids in document order. |
| Measurements.CreateMeasurement | src-tauri/src/actions/measurements.rs:12-20 | A default measurement is appended under the next free "m" id, and that id is returned. |
| Measurements.ListMeasurements | src-tauri/src/actions/measurements.rs:38-47 | One (id, name) pair per measurement, in document order. |
| Measurements.TimeArraysAreSame | src-tauri/src/actions/measurements.rs:82-95 | The loop is Ok iff the list is non-empty and every vector equals the first. Otherwise it returns "No time vectors found" or "Time vectors are not the same". |
| Measurements.Times | src-tauri/src/actions/measurements.rs:60-66 | Only non-empty time vectors are collected. |
| Measurements.TimesFirst | src-tauri/src/actions/measurements.rs:60-66 | The first collected vector is that of the first species entry with a non-empty time vector. |
| Measurements.TimesNone | src-tauri/src/actions/measurements.rs:60-66 | Nothing is collected iff no species entry has a time vector. |
| Measurements.GetMeasurementHashmap | src-tauri/src/actions/measurements.rs:55-80 | The command's loops return exactly `MeasurementMap`: lookup, time check, then the map. |
| Measurements.DataMapKeys | src-tauri/src/actions/measurements.rs:73-77 | The keys are those already present plus the species ids of the entries with data. |
| Measurements.DataMapValue | src-tauri/src/actions/measurements.rs:73-77 | A key with no data entry keeps its value. Otherwise the last entry with data under that key wins. |
| Measurements.MeasurementMapNoTimes | src-tauri/src/actions/measurements.rs:60-68 | A measurement without any time vector gives "No time vectors found". |
| Measurements.MeasurementMapKeys | src-tauri/src/actions/measurements.rs:70-77 | The keys are "time" and the species ids of the entries with non-empty data. |
| Measurements.MeasurementMapTime | src-tauri/src/actions/measurements.rs:71-75 | "time" maps to the first non-empty time vector unless a species "time" with data overwrites it. |
| Measurements.MeasurementMapSpecies | src-tauri/src/actions/measurements.rs:73-77 | Each species with data is keyed by its id and holds the data of the last such entry. |
| Measurements.MeasurementMapMissing | src-tauri/src/actions/measurements.rs:59 | An unknown measurement gives "{id} not found". |
| UnitTables.UnitTypeFrom | src-tauri/src/unit.rs:20-33 | Exactly the seven lowercase names are accepted; anything else panics with "Invalid unit type". |
| UnitTables.UnitTypeFromName | src-tauri/src/unit.rs:22-29 | Each unit type round-trips through its name. |
| UnitTables.GetUnits | src-tauri/src/unit.rs:47-59 | It always succeeds, with the table of the type; the time table binds "days" to the hours unit, as written. |
| UnitTables.GetUnit | src-tauri/src/unit.rs:60-86 | A miss is Err("Unit not found"). The tables searched are the ones written, so "days" finds the hours unit. |
| UnitTables.KindOfTable | src-tauri/src/unit.rs:60-86 | A name in a table is classified under that table's type. |
| UnitTables.TablesDisjoint | src-tauri/src/unit.rs:104-192 | No unit name is in two tables; names are case-sensitive. |
| UnitTables.GetUnitFindsTable | src-tauri/src/unit.rs:60-86 | A name is found in the one table holding it, so the search order never matters. |
| UnitTables.GetUnitNotFound | src-tauri/src/unit.rs:60-86 | `get_unit` fails iff the name is in no table. |
| UnitTables.TemperatureIsKelvinOnly | src-tauri/src/unit.rs:186-192 | The temperature table holds only "K". |
| UnitTables.DaysAreHoursAsWritten | src-tauri/src/unit.rs:133-134 | As written, "days" is bound to the same unit as "hours", and `get_unit("days")` returns the hours unit. |
| UnitTables.TimeTablesDifferInDaysOnly | src-tauri/src/unit.rs:130-141 | The intended time table has the same names as the written one and differs only in the unit of "days". |
| UnitTables.TimeUnitsInjective | src-tauri/src/unit.rs:130-141 | With "days" bound to the day unit, no two time names denote the same unit. |
| Units.GetUnitGroup | src-tauri/src/actions/units.rs:6-9 | It delegates to `get_units`: the table of the type, as written. |
| Units.GetUnitGroups | src-tauri/src/actions/units.rs:11-21 | The `extend` loop returns Ok of the merged tables. |
| Units.MergedEmpty | src-tauri/src/actions/units.rs:15-20 | An empty type list gives an empty map. |
| Units.MergedKeys | src-tauri/src/actions/units.rs:16-19 | A name is merged iff some listed table holds it. |
| Units.MergedValue | src-tauri/src/actions/units.rs:18 | A merged name maps to the unit of any listed table holding it, whatever `extend` overwrote. |
| Units.MergedSameTypes | src-tauri/src/actions/units.rs:16-19 | The merged map depends only on which types are listed. |
| Units.ListedTwice | src-tauri/src/actions/units.rs:16-19 | Listing a type twice gives the same map as listing it once. |
| Units.GetUnitByName | src-tauri/src/actions/units.rs:23-26 | Found iff some table holds the name, with that table's unit; otherwise "Unit not found". |
| Models.StoredReferences | src-tauri/src/models.rs:188-192 | References are stored as None iff the list is empty, else as the entries joined with ",". |
| Models.ReferencesRoundTrip | src-tauri/src/models.rs:188-192 | References without commas are recovered by splitting the stored string at ",", the empty list included. |
| Models.ReferencesCommaAmbiguous | src-tauri/src/models.rs:189 | A comma inside a reference is not recoverable: `["a,b"]` and `["a","b"]` are stored alike. |
| Models.ToDBSmallMolecule | src-tauri/src/models.rs:186-203 | The row has id 0, the name, the SMILES/InChI/InChIKey unchanged, and the stored references. |
| Models.ToDBNewSmallMolecule | src-tauri/src/models.rs:245-261 | The insert row applies the same references rule and copies the rest unchanged. |
| Models.ToDBProtein | src-tauri/src/models.rs:206-217 | The row has id 0 and each optional field copied as is. |
| Models.ToDBNewProtein | src-tauri/src/models.rs:264-274 | The insert row copies the name and each optional field. |
| Models.StoredUnit | src-tauri/src/models.rs:226 | A vessel's stored unit is the unit's name, or "" when it has none. |
| Models.ToDBVessel | src-tauri/src/models.rs:220-229 | The row has id 0, the name, the volume and the stored unit. |
| Models.ToDBNewVessel | src-tauri/src/models.rs:277-285 | The insert row has the name, the volume and the stored unit. |
| Models.ToDBCreator | src-tauri/src/models.rs:232-241 | The row has id 0, the given name, the family name and the mail. |
| Models.ToDBNewCreator | src-tauri/src/models.rs:288-296 | The insert row copies the given name, family name and mail. |
| Models.NewRowsAgree | src-tauri/src/models.rs:186-296 | Insert rows and stored rows agree in every field but the database id. |
| States.EnzymeMLState.constructor | src-tauri/src/states.rs:13-27 | The default state has title "Document Title", a document of that name with nothing else in it, no id and an empty buffer. |
| States.NewSession | src-tauri/src/states.rs:261-268 | A new session has the given id, url and port and no child. |
| States.InfoOf | src-tauri/src/states.rs:166-170 | The view of a session carries its id, url and port. |
| States.JupyterState.constructor | src-tauri/src/states.rs:276-282 | The default state has no sessions, no detected Pythons and no selection. |
| States.JupyterState.AddSession | src-tauri/src/states.rs:125-128 | The session is appended at the end; nothing else changes. |
| States.JupyterState.AddSessionWithChild | src-tauri/src/states.rs:135-150 | A session holding `Some(child)` is appended at the end. |
| States.JupyterState.GetSessions | src-tauri/src/states.rs:162-172 | One view per session, in order. |
| States.JupyterState.GetSession | src-tauri/src/states.rs:184-194 | The view of a session with that url that no earlier session shares, i.e. the first one `find` returns. None iff there is none. |
| States.JupyterState.TakeChildFromSession | src-tauri/src/states.rs:204-214 | The child slot of the first session with that id is emptied and its content returned; the session stays. An absent id gives None and no change. |
| States.JupyterState.RemoveSessionById | src-tauri/src/states.rs:237-243 | The first session with that id is removed and returned; the others keep their order. An absent id gives None. |
| States.JupyterState.KillChild | src-tauri/src/states.rs:220-231 | An absent id gives "no session found for id ..." and no change. Otherwise the session is removed before the kill, so it is gone even when the kill fails. |
| States.TakeTwiceFindsNothing | src-tauri/src/states.rs:209-210 | A second take on the same session finds no child. |
| JupyterActions.DeterminePythonSource | src-tauri/src/actions/jupyter.rs:453-486 | The priority of an interpreter path is between 1 and 5. |
| JupyterActions.PythonSourceTiers | src-tauri/src/actions/jupyter.rs:454-486 | On the lower-cased path: priority 1 iff it contains "conda"; 2 iff not, and it contains "homebrew" or "/usr/local"; 3 and 4 likewise for the later tiers. Each priority comes with its own source name. |
| JupyterActions.PythonSourceIgnoresCase | src-tauri/src/actions/jupyter.rs:454-461 | The tests read the lower-cased path, so an "Anaconda3" directory is classified as anaconda, priority 1. |
| JupyterActions.InsertByPriority | src-tauri/src/actions/jupyter.rs:150 | One insertion step of the sort adds exactly the new installation. |
| JupyterActions.InsertSorted | src-tauri/src/actions/jupyter.rs:150 | Inserting into a list sorted by priority keeps it sorted; the head has the smaller of the two priorities. |
| JupyterActions.InsertStable | src-tauri/src/actions/jupyter.rs:150 | Inserting keeps installations of equal priority in order, with the new one last. |
| JupyterActions.SortByPrioritySorted | src-tauri/src/actions/jupyter.rs:150 | `sort_by_key(priority)` yields a list ordered by priority. |
| JupyterActions.SortByPriorityPermutation | src-tauri/src/actions/jupyter.rs:150 | The sorted list is a permutation of the input. |
| JupyterActions.SortByPriorityStable | src-tauri/src/actions/jupyter.rs:150 | The sort is stable: installations of equal priority keep their input order. |
| JupyterActions.MergeCustom | src-tauri/src/actions/jupyter.rs:398-405 | The detected list is kept as a prefix of the merged list. |
| JupyterActions.LoadCustomPythonEnvs | src-tauri/src/actions/jupyter.rs:381-406 | An unreadable store leaves the installations unchanged. Otherwise each custom environment is appended unless its path is already present. |
| JupyterActions.MergeCustomSpec | src-tauri/src/actions/jupyter.rs:398-405 | What is appended comes from the custom list, every custom path ends up present, and unique paths stay unique. |
| JupyterActions.Discovered | src-tauri/src/actions/jupyter.rs:131-140 | A discovered installation has its path and version, the classification of its path, and is not custom. |
| JupyterActions.DiscoveredAll | src-tauri/src/actions/jupyter.rs:120-144 | There is one installation per interpreter that reported a version, in discovery order. |
| JupyterActions.CollectInstallations | src-tauri/src/actions/jupyter.rs:117-144 | The discovery loop builds exactly the discovered list. |
| JupyterActions.DetectPythonInstallations | src-tauri/src/actions/jupyter.rs:113-158 | The result is the discovered list merged with the stored custom list and sorted by priority. It is stored as the detected list. The first entry is selected only when nothing was selected before; the sessions are untouched. |
| JupyterActions.AutoSelectionIsBest | src-tauri/src/actions/jupyter.rs:150-157 | The automatic selection is a detected installation of the best priority. |
| JupyterActions.SetSelectedPython | src-tauri/src/actions/jupyter.rs:210-228 | A detected path is selected and gives Ok. Any other path gives "Python path not found in detected installations: ..." and keeps the selection. |
| JupyterActions.SetSelectedKeepsValid | src-tauri/src/actions/jupyter.rs:216-225 | The guard keeps the invariant that the selection, when present, names a detected installation. |
| JupyterActions.SaveCustomPythonEnv | src-tauri/src/actions/jupyter.rs:416-444 | A path already stored gives Ok and no change. A new one is appended, and the result is Ok or "Failed to save store: ...", depending on the write. |
| JupyterActions.SaveKeepsPathsUnique | src-tauri/src/actions/jupyter.rs:432-441 | Saving keeps stored paths unique, and the saved path is afterwards present. |
| JupyterActions.AddPythonEnv | src-tauri/src/actions/jupyter.rs:305-333 | The custom interpreter is added to the detected list only when its path is new, then saved. It is selected only when saving succeeded; the sessions are untouched. |
| JupyterActions.AddPythonEnvSelectsDetected | src-tauri/src/actions/jupyter.rs:320-333 | After adding, the selection names a detected installation. |
| JupyterActions.SessionIdInjective | src-tauri/src/actions/jupyter.rs:994 | For names without ':', the session id `name:port` determines both the name and the port. |
| JupyterActions.ParseOutputAndCreateSession | src-tauri/src/actions/jupyter.rs:985-1003 | No URL gives "no URL found in output: ..." and no change. A taken child gives "Child process already taken". Otherwise a session `name:port` with the URL and the child is appended, and the child slot is emptied. |
| JupyterActions.DedupCandidates | src-tauri/src/actions/jupyter.rs:1221-1227 | The candidates without repeats, each kept at its first occurrence. |
| JupyterActions.JoinSnoc | src-tauri/src/actions/jupyter.rs:1236-1241 | Joining one more entry appends the separator and the entry. |
| JupyterActions.JoinedPathIsJoin | src-tauri/src/actions/jupyter.rs:1235-1241 | The three branches of the PATH assembly are one join: of the candidates, followed by the current PATH when it is non-empty. |
| JupyterActions.BuildPath | src-tauri/src/actions/jupyter.rs:1221-1241 | The PATH entry joins the distinct candidates and then the current PATH. |
| JupyterActions.BuildPathEntries | src-tauri/src/actions/jupyter.rs:1221-1241 | With no separator inside the entries, splitting the PATH at the separator gives back the distinct candidates, then the current PATH. |
| Keyboard.ModifierMatchesExactly | src/hooks/useKeyboardShortcuts.ts:28-31 | A modifier test passes exactly when the modifier's held state is what the shortcut requires, so an unrequired modifier must not be held. |
| Keyboard.HandleKeyDown | src/hooks/useKeyboardShortcuts.ts:19-41 | The callback that fires is the first enabled shortcut matching the key (case-insensitively) and all four modifiers. None fires iff none matches. The default is prevented exactly when one fires. |
| Keyboard.FiredIsFirstMatch | src/hooks/useKeyboardShortcuts.ts:20-39 | The handler's outcome is the first matching index of the shortcut list. |
| Keyboard.ExtractionShortcuts | src/hooks/useKeyboardShortcuts.ts:55-69 | The extraction helper registers two shortcuts. |
| Keyboard.ExtractionToggle | src/hooks/useKeyboardShortcuts.ts:55-69 | An L press in either case toggles through the Cmd+L shortcut when only Meta is held and through the Ctrl+L shortcut when only Ctrl is held. It toggles nothing when both or neither are held, or when the shortcuts are disabled. |
| Keyboard.ExtractionNeedsExactModifiers | src/hooks/useKeyboardShortcuts.ts:30-31 | Alt or Shift held alongside stops the toggle. |
| Listener.HandleDelete | src/tauri/listener.ts:63-97 | There are no calls iff the id is not listed. Otherwise the last call is the delete, preceded by at most one selection change, and the selection changes only when the deleted id is the selected one. |
| Listener.DeleteOnce | src/tauri/listener.ts:75-96 | `deleteFun` runs exactly once when the id is listed, and never otherwise. |
| Listener.HandoverTarget | src/tauri/listener.ts:71-96 | When the selected item (first found at `index`) is deleted, the selection moves to the previous entry, or to the next one when it was first, or to nothing when it was the only entry. |
| Listener.HandoverLeavesDeleted | src/tauri/listener.ts:80-92 | With distinct ids, the selection never stays on the deleted item. It moves to another listed id, or is cleared iff the list held nothing else. |
| EquationUtils.TrailingDigitsStart | src/utilities/equationutils.ts:20 | The start of the maximal run of trailing digits that `/(\d+)$/` captures. |
| EquationUtils.IdToLatex | src/utilities/equationutils.ts:16-21 | "" iff the id is missing or empty; an id not ending in a digit is returned as is. |
| EquationUtils.IdToLatexSplits | src/utilities/equationutils.ts:20 | `stem + digits`, with a stem not ending in a digit, becomes `stem_{digits}`. |
| EquationUtils.IdToLatexExamples | src/utilities/equationutils.ts:16-21 | "k12" becomes "k_{12}"; "s1a" stays "s1a". |
| EquationUtils.FirstLetterDigit | src/utilities/equationutils.ts:153 | The leftmost position where `/([psc])(\d+)/` matches, or None iff it matches nowhere. |
| EquationUtils.FirstLetterUnderscoreDigit | src/utilities/equationutils.ts:163 | The leftmost position where `/([psc])_(\d+)/` matches, or None iff it matches nowhere. |
| EquationUtils.SpeciesIdToUnderscore | src/utilities/equationutils.ts:152-154 | One "_" is inserted at the first match, or nothing when the pattern does not occur. |
| EquationUtils.UnderscoreToSpeciesId | src/utilities/equationutils.ts:162-164 | One "_" is dropped at the first match, or nothing when the pattern does not occur. |
| EquationUtils.UnderscoreRoundTrip | src/utilities/equationutils.ts:152-164 | A species-shaped id (p, s or c, then digits) becomes letter "_" digits, and converting back restores it. |
| EquationUtils.SpeciesRoundTrip | src/utilities/equationutils.ts:152-164 | A letter "_" digits form converts to the species id and back to itself. |
| EquationUtils.LetterRun | src/utilities/equationutils.ts:30 | The greedy `[a-zA-Z]+` run at the front of a string. |
| EquationUtils.CorrectLatexUnderscript | src/utilities/equationutils.ts:29-34 | The global replacement keeps the length of the string. |
| EquationUtils.CorrectKeepsCharacters | src/utilities/equationutils.ts:29-34 | The correction only moves closing braces: every character is kept, as often as before. |
| EquationUtils.CorrectWithoutMatch | src/utilities/equationutils.ts:30-33 | A string in which the pattern occurs nowhere is unchanged. |
| EquationUtils.CorrectExample | src/utilities/equationutils.ts:30-33 | "_{k}cat" becomes "_{kcat}". |
| EquationUtils.DistributeParamsAndVars | src/utilities/equationutils.ts:54-88 | The classification loop and duplicate removal compute the distribution of the parsed symbols. |
| EquationUtils.VarsOfMembers | src/utilities/equationutils.ts:68-76 | A variable is pushed iff some symbol is a species name, and the variable is that symbol's species id. |
| EquationUtils.ParamsOfMembers | src/utilities/equationutils.ts:68-76 | A parameter is pushed iff it is a symbol that is not a species name. |
| EquationUtils.DistributionSpec | src/utilities/equationutils.ts:54-101 | After de-duplication, each parameter and each variable is listed once. Parameters are exactly the non-species symbols; variables are exactly the species reached from some symbol. |
| EquationUtils.VarsAreSpecies | src/utilities/equationutils.ts:96-101 | Every variable is one of the listed species ids. |
| EquationUtils.DistributionFailures | src/utilities/equationutils.ts:83-87 | The result is null iff the expression is malformed, or the species fetch failed while there were symbols to classify. |
| KineticLaws.CategoryTablesAgree | src/kineticlaw/kineticLaws.ts:64-71 | `categoryMap` maps a JSON category iff `categoryMappings` has it, to that entry's key, and always to one of the application's categories. |
| KineticLaws.TransformParameter | src/kineticlaw/kineticLaws.ts:32-37 | Id and symbol are copied; the short description serves as both name and description. |
| KineticLaws.TransformSpecies | src/kineticlaw/kineticLaws.ts:40-59 | Id, requiredness and name come through. The role is one of the application's roles, and `substrate` for an unknown JSON role. The description is the long one unless that is empty. |
| KineticLaws.RoleMapOnto | src/kineticlaw/kineticLaws.ts:42-50 | Every application role is reached from some JSON role name. |
| KineticLaws.TransformKineticLaw | src/kineticlaw/kineticLaws.ts:62-82 | The scalar fields are copied. The category is an application category, and `chemical` when unknown. Parameters and species are transformed element by element. |
| KineticLaws.FindIndexIsFirst | src/kineticlaw/kineticLaws.ts:89-91 | `index === self.findIndex(...)` holds iff the law is the first with its id. |
| KineticLaws.UniqueLaws | src/kineticlaw/kineticLaws.ts:89-91 | The filter keeps only laws from the list and never grows it. |
| KineticLaws.UniqueLawsDistinct | src/kineticlaw/kineticLaws.ts:88-91 | The deduplicated catalogue holds each id at most once. |
| KineticLaws.UniqueLawsLookup | src/kineticlaw/kineticLaws.ts:89-91 | A lookup by id in the deduplicated catalogue finds the same law as in the full list. |
| KineticLaws.GetKineticLawById | src/kineticlaw/kineticLaws.ts:133-135 | The first law with the id; undefined iff no law has it. |
| KineticLaws.CatalogueLookup | src/kineticlaw/kineticLaws.ts:85-94 | Looking up an id in the exported catalogue gives the first law of that id in JSON order. |
| KineticLaws.GetKineticLawsByCategory | src/kineticlaw/kineticLaws.ts:129-131 | Exactly the laws of the list with that category key. |
| KineticLaws.SetEntry | src/kineticlaw/kineticLaws.ts:116 | `Map.set` keeps keys unique, adds the key, and stores the new entry; nothing else is invented. |
| KineticLaws.ExtractCategories | src/kineticlaw/kineticLaws.ts:97-121 | The categories are the mapped entries of the distinct JSON categories, in order of first appearance. |
| KineticLaws.MappedCategoriesSpec | src/kineticlaw/kineticLaws.ts:110-120 | The extracted categories have distinct keys. A key is present iff some JSON category maps to it. Each entry is the mapping of some JSON category. |
| KineticLaws.ActivationMergesWithEnzymatic | src/kineticlaw/kineticLaws.ts:101-104 | 'Activation' and 'Enzymatic Rate Law' map to the same entry, so merging them loses nothing. |
| KineticLaws.LawCategoryListed | src/kineticlaw/kineticLaws.ts:76-120 | The category of every law with a mapped JSON category is among the extracted categories. |
| KineticLawUtils.GetEquationSize | src/kineticlaw/utils.ts:76-84 | "large" iff the length is below 45, "small" iff it is at least 70, "normal" otherwise. |
| KineticLawUtils.SizeShrinksWithLength | src/kineticlaw/utils.ts:76-84 | A longer equation is never shown in a larger size. |
| KineticLawUtils.RoleColorsDistinct | src/kineticlaw/utils.ts:5-12 | Each role in the colour table has a colour of its own. |
| KineticLawUtils.CatalogueRolesColoured | src/kineticlaw/utils.ts:5-12 | Every species role produced by the catalogue normalisation has a colour. |
| KineticLawUtils.Fill | src/kineticlaw/utils.ts:49-67 | The grouping keeps its group order and its map of groups in step. |
| KineticLawUtils.AddToColorGroup | src/kineticlaw/utils.ts:49-67 | One callback run creates the placeholder's colour group when missing and appends its symbol (the assigned id, or the placeholder id without form values); a placeholder without a colour changes nothing. |
| KineticLawUtils.CreateColoredSymbolsMap | src/kineticlaw/utils.ts:40-74 | The forEach loop computes the coloured-symbols map: none without a law, else one group per colour. |
| KineticLawUtils.GroupsInFirstAppearanceOrder | src/kineticlaw/utils.ts:50-54 | There is one group per distinct colour, in order of first appearance. |
| KineticLawUtils.AddPlaceholderMembers | src/kineticlaw/utils.ts:50-65 | One step adds at most the visited placeholder's symbol, and only to its own colour's group. |
| KineticLawUtils.GroupMembers | src/kineticlaw/utils.ts:49-67 | A symbol is in a colour's group iff some placeholder of that colour contributes it. |
| KineticLawUtils.GroupPerColour | src/kineticlaw/utils.ts:51-54 | A colour's group exists once a placeholder has that colour's role, whether or not anything was assigned to it. |
| KineticLawUtils.PlaceholderIdsListed | src/kineticlaw/utils.ts:62-65 | Without form values, every placeholder id is in its colour's group. |
| KineticLawUtils.OnlyAssignedListed | src/kineticlaw/utils.ts:57-61 | With form values, every listed symbol is the non-empty species assignment of a placeholder of that colour. |
| KineticLawUtils.EmptyGroupExample | src/kineticlaw/utils.ts:52-61 | A substrate placeholder with nothing assigned still gets its own empty group. |
| KineticLawUtils.ReplaceAllAbsent | src/kineticlaw/utils.ts:28-32 | Replacing a pattern that does not occur changes nothing. |
| KineticLawUtils.ColorizeEquation | src/kineticlaw/utils.ts:15-37 | Without a law the equation is returned. Otherwise each assigned species' bracketed occurrences are wrapped in its role's colour, one placeholder after another. |
| KineticLawUtils.ColorizeWithoutAssignments | src/kineticlaw/utils.ts:24-34 | With no species assigned, the equation comes back unchanged. |
| ReactionSmiles.ExtractSmiles | src/reactions/utils.ts:21-23 | The SMILES of the ids that have one, in id order. When every id has one, it is exactly their SMILES. |
| ReactionSmiles.ExtractConcat | src/reactions/utils.ts:22 | Extraction works id by id: it distributes over concatenation. |
| ReactionSmiles.ExtractSkipsUnknown | src/reactions/utils.ts:22 | Ids without an entry contribute nothing. |
| ReactionSmiles.CreateReactionSmiles | src/reactions/utils.ts:8-12 | With no SMILES on either side, the result is ">>". |
| ReactionSmiles.ReactionSmilesSides | src/reactions/utils.ts:8-12 | When no SMILES contains '>', splitting at '>' gives the joined reactants, an empty piece and the joined products. |
| ReactionSmiles.ReactantsReadBack | src/reactions/utils.ts:8-23 | Without '>' or '.' in any SMILES, the reactant SMILES list can be read back from the reaction SMILES. |
| ParameterTable.FormatSymbolForDisplay | src/parameters/components/ParameterTable.tsx:145-163 | The first character is kept. A symbol with '_' and without a literal "\d" after its first character is unchanged, and so is any symbol of at most one character. |
| ParameterTable.FormatWithoutUnderscore | src/parameters/components/ParameterTable.tsx:156-162 | Without an underscore, a two-character symbol gets a bare subscript and a longer one a braced subscript. |
| ParameterTable.FormatDigitsAreNotSpecial | src/parameters/components/ParameterTable.tsx:147 | The first test looks for backslash-d literally: "k_12" is unchanged, while "k_\d" is braced. |
| ParameterTable.FormatKeepsText | src/parameters/components/ParameterTable.tsx:145-163 | Formatting only adds markup: with '_', '{' and '}' removed, the shown text equals the symbol's. |
| ParameterTable.RowClassName | src/parameters/components/ParameterTable.tsx:71-82 | The class starts with "param-row". It carries " param-row--zebra" iff the index is even, and ends with " border-none" iff the row is the last. |
| Validation.CountSeverity | src/validation/utils.ts:51-52 | The count is at most the number of results, and positive iff some result has that severity. |
| Validation.CountsPartition | src/validation/utils.ts:51-52 | Every result has exactly one severity, so the three counts add up to the number of results. |
| Validation.Classify | src/validation/utils.ts:54-63 | HasErrors iff some result is an error. HasWarnings iff none is an error and some is a warning. OK iff all are informational. |
| Validation.GetValidationStatus | src/validation/utils.ts:26-64 | A failed command gives "Failed to get validation report: ...". A report marked valid, or one listing nothing, is OK. |
| Validation.StatusOfInvalidReport | src/validation/utils.ts:44-63 | For a report not marked valid, the status is the severity precedence applied to its results. |
| Validation.GetValidationStatusById | src/validation/utils.ts:101-126 | No results give OK. |
| Validation.StatusByIdIsPrecedence | src/validation/utils.ts:107-125 | The per-identifier status follows the same precedence as the document status. |
| Validation.GetReportCounts | src/validation/utils.ts:72-78 | A failed command gives the same error. Otherwise the counts are the numbers of Error and of Warning results, which together never exceed the number of results. |
| Validation.CountsAgreeWithStatus | src/validation/utils.ts:40-78 | For a report not marked valid, the counts determine the status: errors give HasErrors, else warnings give HasWarnings, else OK. |

## Left out

Foreign code:

- The expression parser (`meval` together with `enzymeml::equation::extract_symbols`) and the mathjs `parse` are the parameter `parse`. The model does not cover how a text is tokenised.
- `f64` values are `real`; there is no NaN and no rounding. Coefficients render through the parameter `fmt`. The `f32` measurement vectors are sequences of `real`.
- Reads and writes of the config store and the database, file dialogs, process spawning and `--version` probing are left out. Their outcomes are parameters, for example `stored` and `saved` in `JupyterActions`, the discovered `(path, version)` pairs and the kill outcome in `States`.
- The regular expressions (the Python version pattern, the Jupyter URL pattern) are left out. Their matches are parameters.
- Port probing, `open_project_folder`, the Jupyter templates, `install_jupyter_lab` and `is_jupyter_lab_installed` are process or file I/O.
- The `mcp`, api, window, `dataio`, `dbops`, simulation and visualisation commands, and `validation.rs`, are not part of this model.
- The `enzymeml` crate's builders are left out. `create_object!` is modelled as a fresh id over the collection's ids plus the builder defaults, because the macro's `get_id` helper is not part of this model. `add_objects!` is modelled as an append.
- Tauri events (`update_event!`) carry no data the model needs, so they are left out.
- Unit definitions are the `unit!` macro's arguments. The names the macro builds are not modelled.
- `console.log` and `console.error` are left out.
- Rust `to_lowercase` is modelled as ASCII lower-casing (`Text.Lower`); non-ASCII case mappings are not modelled.
- JavaScript `toLowerCase` in `src/hooks/useKeyboardShortcuts.ts` is modelled by the same ASCII `Text.Lower`; non-ASCII keys are not modelled.
- The macros `get_object!`, `update_object!` and `delete_object!` are called by the protein, small-molecule, vessel and reaction commands but are not defined in `macros.rs`, which defines `get_by_id!`, `update_by_id!` and `delete_by_id!`. The model gives them the by-id semantics of those macros: the first item with the id is read, replaced or removed, and a missing id panics with "Item not found".

Concurrency:

- Each command runs as one transaction on the state. Mutex locking, poisoning and interleaving are not modelled.
- `add_reaction` is left out. It holds the document lock while `process_kinetic_law` locks the document again, so on a standard `Mutex` it cannot complete. `add_reactions` and `update_reaction` take the lock only after processing, and they are modelled.

Weaker or partial contracts:

- Reconciler.AddUnboundUnique: uniqueness of parameter ids is proved only for symbol lists without repeats. The model, like the code, appends a repeated unbound symbol once per occurrence, because the set of live ids is taken before the loop.
- Derivation.DerivePart: the panic for a species on neither side is unreachable behind `has_species_id`, so it is not modelled.
- SmallMols.DeleteSmallMol: the panic when no equation has the species id is modelled as `Panicked`, after the molecule is removed. The remaining state of a panicked command is not specified.
- JupyterActions.DetectPythonInstallations: a selection that no longer names a detected installation is kept, as the code does. The contract does not promise a valid selection.
- EnzmlDoc.SpeciesIds: membership and count are stated; the order of the three groups is stated by `PairsMatchIds` only.
- Validation.GetValidationStatusById: the contract states only the empty case. The precedence is stated by `StatusByIdIsPrecedence`.
- Validation: a report whose `errors` field is null or absent is not modelled. `getValidationStatus` would treat it as empty through `|| []`, and `getReportCounts` would throw on it; the model's report always holds a list.

Frontend decisions:

- `src/tauri/listener.ts`: the callbacks of `handleDelete` are modelled as the returned list of calls they receive.
- `src/hooks/useKeyboardShortcuts.ts`: the callbacks of the key handler are modelled as the index of the shortcut that fires. Event registration and removal are not modelled.
- KineticLawUtils.ColorizeEquation: the assigned species id is matched literally. The model assumes it contains no regular-expression metacharacters and no `$`.
- `Object.entries` on the colour groups is taken to follow insertion order. The colour keys are not integer-like, so JavaScript keeps them in that order.
- The kinetic-law JSON asset is a parameter.
  - Keys that a plain `Record` inherits (such as `constructor`) are not modelled as hits in `roleMap` and `categoryMap`.
  - `getCategories` returns the extracted list unchanged and has no contract of its own.
- EquationUtils.DistributeParamsAndVars: the species list is fetched once, and every `isSpeciesID` call sees the same list.
- The remaining frontend helpers:
  - `asciiToLatex` calls the foreign mathlive converter and is left out;
  - `convertUnderscoreSpeciesToIDs` and `convertSpeciesIDsToUnderscore` are left out because they rely on regex word boundaries;
  - `getValidationReport` and `getValidationReportById` pass the backend reply through, and `getValidationStatus` models their error path.
- `formatSymbolForDisplay` tests for the literal two characters backslash and `d`, as written. The comment in the code suggests it means a digit.

Code and documentation that disagree (the model follows the code here):

- `create_small_mol` is documented as also adding an ODE equation. The code does not add one.
- `list_small_mol_smiles` is documented as using the id when there is no SMILES. The code uses `"NO_SMILES"`.

## Findings

| source | as written | input that shows it | evidently intended | confidence | as-written member | corrected member |
|---|---|---|---|---|---|---|
| src-tauri/src/actions/equations.rs:247 | A later part with a non-unit coefficient is written as `" {sign} {coef}*{law}"` with the signed coefficient. A negative part therefore shows its sign twice. | Species `S` is a product (1) of a reaction with law `k2*E` and a reactant (2) of a reaction with law `k1*S`. The derived ODE text is `k2*E - -2*k1*S`, which reads as `k2*E + 2*k1*S`. | The sign comes from `sign`, and the coefficient is written unsigned: `k2*E - 2*k1*S`. | high, not executed | Derivation.AsWrittenDoublesSign (with Derivation.WorkedExample and Derivation.AssembleEquation) | Derivation.LaterTermSingleSign (with Derivation.AsWrittenIsIntendedWithoutNegativeCoefficients) |
| src-tauri/src/unit.rs:133 | `"days"` is bound to `unit!([_ hours])`, the same definition as `"hours"`. | The lookup `get_unit("days")` returns the hour unit. | `"days"` is bound to the day unit. | medium, not executed | UnitTables.DaysAreHoursAsWritten | UnitTables.TimeUnitsInjective (with UnitTables.TimeTablesDifferInDaysOnly) |

The commands are modelled as written: the derive command stores the text `AssembledAsWritten` builds, and the unit lookups use `TimeUnitsAsWritten`. The corrected definitions (`Assembled`, `TimeUnits`) serve as references; the lemmas in the corrected-member cells relate them to the written ones.
