# gokart persistence core in Dafny

This project models the persistence layer of gokart, a data-pipeline framework.
Pipeline stages read and write artifacts through *targets*. The model covers:

- **Output paths and lock scopes** (`TargetPaths`, on top of `Paths`).
  - `_make_file_path` inserts `'_' + unique_id` before the extension.
  - `make_target` and `make_model_target` derive a lock scope from the path given before the suffix is added.
  - A model target's scratch directory is `join(temporary_directory, digest(final_path))`.
- **The chunked table serializer** (`Chunking`): `LargeDataFrameProcessor.save` and `load`.
  - A table is a `seq<Row>` and its directory is a map from file name to rows.
  - `np.array_split` is written out as integer arithmetic: the first `n % k` parts get `n / k + 1` rows and the rest get `n / k`.
  - `save` is a method with a loop that writes one fragment per section.
  - `load` concatenates the fragments in the order the directory listing gives them.
- **The target contract** (`Targets`).
  - A `Storage` class holds the files, the directories and a ghost trace of events.
  - A `Target` class models `SingleFileTarget` and `ModelTarget` behind `load`, `dump` and `remove`.
  - Every method is proved against a specification function (`LoadSpec`, `DumpSpec`).
  - The lock wrappers are identities that record an event in the trace.
- **Object-metadata patching** (`ObjectMetadata`): `_merge_with_user_provided_labels`, the 8 KiB UTF-8 budget loop of `_get_patched_obj_metadata`, and the patch-only-if-changed decision of `add_task_state_labels`. The loops are methods proved against recursive functions.
- **Task-tree rendering** (`TaskTree`).
  - `make_tree_info` and `make_tree_info_table_list` are methods over a threaded visited set.
  - Each is proved equal to a recursive function, and the properties are proved about those functions.

Behaviour of the code worth noting, each stated by the lemmas named:

- **Lock scope.** The lock parameters are built from the path *before* the run-id suffix, together with the unique id (`DerivedLockScope`).
- **Scratch directory.** It is removed only on the success path of a model load and of a model dump. There is no cleanup on failure: a load that fails after unpacking leaves it behind (`ScratchRemovedOnlyOnSuccess`, `NoneLoaderLeavesScratch`), and so does a dump whose save function raises (`DumpScratchLeftOnFailure`).
- **Fragment order on load.** Fragments are concatenated in glob order, which is not sorted. Only the multiset of rows is determined in general (`SaveLoadAnyOrder`). Row order is preserved when the listing is ascending (`SaveLoadAscending`).
- **Fragment names.** Fragments are named `data_<i>.pkl` and are written into the bare directory of the file path, so two artifacts in one directory share their fragments.
- **Stale fragments.** `save` deletes no existing fragments, so a stale higher-numbered fragment is loaded too (`StaleFragmentIsLoaded`).
- **More sections than rows.** When there are more sections than rows, `save` fails on the first empty section, after writing one fragment per row (`Chunking.Save`, `EmptySectionIff`).

## Model

| member | source | states |
|---|---|---|
| Paths.SplitExt | gokart/target.py:241 | the split's two parts concatenate back to the path, and the extension is empty or a single dot-led final component |
| Paths.SplitExtFindsExtension | gokart/target.py:241 | conversely, a dot-led final component without further dots or slashes, after a file name that is not all dots, is split off exactly |
| Paths.RStripSlashes | gokart/target.py:213 | the result is a prefix of the input, does not end in '/', and only slashes were removed |
| Paths.Join | gokart/target.py:196 | a joined path ends with the joined name |
| Paths.JoinWithin | gokart/target.py:195-199 | a relative name joined under a directory lies within that directory |
| Paths.DirnameOfJoin | gokart/target.py:213-217 | the directory part of `join(d, n)` is `d` again, for a slash-free name |
| TargetPaths.NoRunIdKeepsPath | gokart/target.py:239-243 | without a unique id the path is returned unchanged |
| TargetPaths.RunIdSuffixShape | gokart/target.py:240-242 | with a unique id the path grows by exactly `|u| + 1`, differs from the input, starts with `base + "_" + u` and ends with the original extension |
| TargetPaths.RunIdInjective | gokart/target.py:240-242 | two unique ids that yield the same file path are equal |
| TargetPaths.RunIdKeepsExtension | gokart/target.py:240-242 | splitting the derived path again gives the original extension and `base + "_" + u` as the base, for ids without '.' or '/' |
| TargetPaths.DerivedLockScope | gokart/target.py:261-262 | the lock parameters are built from the pre-suffix path (never the suffixed one) and the unique id |
| TargetPaths.ScratchIsolation | gokart/target.py:277-278 | final paths with different digests get different scratch directories |
| Chunking.FloorDiv | gokart/target.py:220 | Python floor division: the quotient brackets the dividend from below for either sign of divisor |
| Chunking.SectionCountBound | gokart/target.py:220 | for a positive `max_byte`, the split size `k` is at least 1 and `(k-1)*max_byte <= nbytes < k*max_byte` |
| Chunking.SectionStartClosed | gokart/target.py:222 | the start of section `i` is `i*(n/k) + min(i, n%k)`, the array_split boundary |
| Chunking.SectionStartEnd | gokart/target.py:222 | the `k` sections end exactly at the last row |
| Chunking.SectionStartMonotone | gokart/target.py:222 | section boundaries never decrease |
| Chunking.Section | gokart/target.py:222-223 | a section holds exactly its array_split size in rows |
| Chunking.FlattenSections | gokart/target.py:222-223 | the first `j` sections concatenated are the rows before the `j`-th boundary |
| Chunking.SectionsPartition | gokart/target.py:222 | there are exactly `k` sections, they concatenate to the table, and sizes differ by at most one with larger sections first |
| Chunking.EmptySectionIff | gokart/target.py:222-223 | a section is empty iff there are more sections than rows and its index is at least the row count |
| Chunking.OversplitSections | gokart/target.py:222-223 | with more sections than rows, section `i < n` holds exactly row `i` |
| Chunking.NatToStringInjective | gokart/target.py:223 | distinct fragment indices render as distinct decimal strings |
| Chunking.FragmentNames | gokart/target.py:223 | every fragment name matches the `data_*.pkl` pattern, and fragment names are distinct per index |
| Chunking.WrittenContents | gokart/target.py:222-223 | after `m` writes the directory holds the old files plus fragments `0..m-1`, each fragment holds its section, and every other file is unchanged |
| Chunking.Save | gokart/target.py:212-223 | fails and writes nothing for an empty directory name; an empty table writes only `data_0.pkl`; a zero `max_byte` or non-positive split size is an error; otherwise all sections are written, or, with more sections than rows, one fragment per row is written before the empty-section error |
| Chunking.WriteSections | gokart/target.py:222-223 | the loop writes all `k` sections, or stops with the empty-section error after the `|rows|` non-empty ones |
| Chunking.Load | gokart/target.py:225-229 | load fails iff the directory holds no `data_*.pkl` file |
| Chunking.ConcatFilesAppend | gokart/target.py:229 | concatenating two listings is concatenating their loads |
| Chunking.ConcatFilesRemove | gokart/target.py:229 | removing one file from a listing removes exactly its rows from the multiset of loaded rows |
| Chunking.ConcatFilesAnyOrder | gokart/target.py:229 | any two duplicate-free listings of the same files load the same multiset of rows |
| Chunking.AscendingListingFacts | gokart/target.py:229 | the ascending listing names fragments `0..m-1` in order, exactly the fragment set, without repeats |
| Chunking.ConcatAscending | gokart/target.py:222-229 | loading the first `j` fragments in ascending order yields the rows before the `j`-th boundary |
| Chunking.WrittenListing | gokart/target.py:222-229 | into a directory without fragments, a save is listed by exactly its `k` fragments and loads back to the table in ascending order |
| Chunking.SaveLoadAscending | gokart/target.py:212-229 | when all sections were written and the listing is ascending, load after save returns the table itself |
| Chunking.SaveLoadAnyOrder | gokart/target.py:212-229 | for any glob order, load after save succeeds with a permutation of the table's rows |
| Chunking.EmptyTableRoundTrip | gokart/target.py:216-218 | an empty table leaves exactly one fragment, and loading it gives the empty table |
| Chunking.StaleFragmentIsLoaded | gokart/target.py:222-229 | a leftover fragment `data_k.pkl` survives a save of `k` sections and is appended to the loaded rows |
| Chunking.ConcatThenStale | gokart/target.py:229 | the ascending listing of `k+1` fragments loads the saved rows followed by the stale ones |
| Chunking.StaleListing | gokart/target.py:222-229 | after the save, the directory's fragments are exactly `data_0 .. data_k` |
| Targets.RemoveTree | gokart/target.py:201-202 | rmtree removes exactly the files and directories inside the scratch directory, and the directory itself |
| Targets.SingleDumpEvents | gokart/target.py:126-131 | a single-file dump writes first and annotates iff the path starts with `gs://` |
| Targets.LoadSpec | gokart/target.py:32-33 | every load starts with the lock-guarded event for the target's scope, and a single-file load changes neither the disk nor the bound load function |
| Targets.Storage.MakeDirs | gokart/target.py:204-205 | makedirs adds the scratch directory and records it |
| Targets.Storage.RemoveDirTree | gokart/target.py:201-202 | the store after rmtree is `RemoveTree` of the store before, and the removal is recorded |
| Targets.Target.MakeTarget | gokart/target.py:254-265 | the target's path is the run-id path, its scope the derived or given lock parameters, and it is a single-file target |
| Targets.Target.MakeModelTarget | gokart/target.py:268-285 | as above, and the scratch directory is the digest of the final path joined under the temporary root |
| Targets.Target.Load | gokart/target.py:32-33 | result, store, bound load function and trace are those of `LoadSpec`: the lock event, then the variant's load |
| Targets.Target.LoadFile | gokart/target.py:115-117 | a single-file load returns the unpickled file, or the missing-file error |
| Targets.Target.LoadModel | gokart/target.py:164-169 | unpack, bind the load function, call it on the model file, then remove the scratch directory, as `ModelLoad` states |
| Targets.Target.ResolveLoadFunction | gokart/target.py:166 | a truthy bound function is kept; otherwise it is loaded, under its own lock event, from `load_function.pkl`, and the files are unchanged |
| Targets.Target.Dump | gokart/target.py:35-51 | the store and the raised error follow `DumpSpec`, and the trace gets the dump-lock event iff `lock_at_dump` |
| Targets.Target.DumpFile | gokart/target.py:119-131 | the pickled object is written at the path, then annotation follows for `gs://` paths only |
| Targets.Target.DumpModel | gokart/target.py:171-184 | the scratch directory is made; a save function that raises ends the dump there with `SaveFailed`, otherwise the files are written, archived at the path and the scratch directory removed, as `DumpSpec` states |
| Targets.Target.ArchiveScratch | gokart/target.py:179-184 | after the save function returned bytes, the store and trace are those of `SavedDump`: model file, nested locked dump of the load function, archive, removal |
| Targets.Target.WriteScratch | gokart/target.py:179-182 | model.pkl holds the saved bytes and load_function.pkl the pickled load function, written through a nested locked single-file dump |
| Targets.Target.Remove | gokart/target.py:53-55 | an existing artifact is deleted under the remove lock; a missing one leaves store and trace unchanged |
| Targets.SingleFileRoundTrip | gokart/target.py:115-131 | a single-file load after a dump returns the dumped object, and no other file or directory is touched |
| Targets.ScratchFiles | gokart/target.py:195-199 | model.pkl and load_function.pkl are two distinct files inside the scratch directory |
| Targets.ModelDumpLeavesArchive | gokart/target.py:171-184 | after a model dump whose save function succeeds, the dump reports no error, the archive holds the saved model and the load function, nothing remains in the scratch directory, and the rest of the store is unchanged |
| Targets.DumpScratchLeftOnFailure | gokart/target.py:178-184 | a model dump fails iff the save function raises, the scratch directory is removed iff it succeeds, and a failed dump leaves the scratch directory on disk, the files unchanged and nothing archived |
| Targets.RemoveUnpacked | gokart/target.py:165-168 | unpacking into a scratch directory that was absent and then removing it restores the store |
| Targets.ModelRoundTrip | gokart/target.py:164-184 | a model load after a dump whose save function succeeded applies the bound (or the stored) load function to the saved model bytes, restores the store, and reads `load_function.pkl` iff no function was bound |
| Targets.ArchiveRoundTrip | gokart/target.py:164-169 | loading an archive of saved bytes and a load function into an absent scratch directory applies the bound (or the stored) function to the bytes, restores the store, and reads `load_function.pkl` iff no function was bound |
| Targets.ModelLoadCleanup | gokart/target.py:164-169 | `_load` removes the scratch directory iff it succeeds, and a failure after unpacking leaves it on disk |
| Targets.ScratchRemovedOnlyOnSuccess | gokart/target.py:164-169 | the scratch directory is removed iff the load succeeds, and a failure after unpacking leaves it on disk |
| Targets.NoneLoaderLeavesScratch | gokart/target.py:166-168 | a model dumped (with a save function that succeeds) with no load function cannot be loaded without one, and its scratch files stay behind |
| Targets.BoundLoaderIsKept | gokart/target.py:166 | after a successful load the function stays bound, so a second load skips `load_function.pkl` and gives the same result |
| ObjectMetadata.CharUtf8Len | gokart/gcs_obj_metadata_client.py:84 | a scalar takes 1 to 4 UTF-8 bytes, and exactly 1 iff it is ASCII |
| ObjectMetadata.Utf8Len | gokart/gcs_obj_metadata_client.py:84 | an encoded string has between `|s|` and `4|s|` bytes |
| ObjectMetadata.Utf8LenAscii | gokart/gcs_obj_metadata_client.py:84 | an ASCII string's encoded length is its length |
| ObjectMetadata.MergeWithUserProvidedLabels | gokart/gcs_obj_metadata_client.py:96-121 | the two loops produce `MergedLabels`: parameter labels, then user labels, or the error `dict()` raises |
| ObjectMetadata.CollectParameterLabels | gokart/gcs_obj_metadata_client.py:104-111 | the first loop collects exactly the kept parameters, in order |
| ObjectMetadata.AppendUserProvidedLabels | gokart/gcs_obj_metadata_client.py:114-120 | the second loop appends every user label after the parameter labels, or fails as `dict()` does |
| ObjectMetadata.ParamLabelsAppend | gokart/gcs_obj_metadata_client.py:104-110 | parameter labels of a concatenation are the concatenation of the labels |
| ObjectMetadata.ParamLabelsMembership | gokart/gcs_obj_metadata_client.py:104-110 | a label is a parameter label iff some significant, non-None, non-user-label parameter produced it |
| ObjectMetadata.ParamLabelsClean | gokart/gcs_obj_metadata_client.py:105-109 | no parameter label is the user-label entry or has a None value |
| ObjectMetadata.MergeFailsIff | gokart/gcs_obj_metadata_client.py:114-116 | the merge fails iff some user-label entry is not convertible by `dict()` |
| ObjectMetadata.UserLabelsComeLast | gokart/gcs_obj_metadata_client.py:114-121 | a user-label entry's items come after all earlier labels, in their dict order |
| ObjectMetadata.UserLabelsNone | gokart/gcs_obj_metadata_client.py:114-115 | without a user-label entry the second loop adds nothing |
| ObjectMetadata.ParamLabelsAllKept | gokart/gcs_obj_metadata_client.py:104-110 | when every parameter is kept, the labels are the parameters in order |
| ObjectMetadata.PatchedMetadata | gokart/gcs_obj_metadata_client.py:65-94 | non-dict metadata is returned unchanged, no parameters means an unchanged copy, and a dict stays a dict |
| ObjectMetadata.GetPatchedObjMetadata | gokart/gcs_obj_metadata_client.py:65-94 | the method returns `PatchedMetadata` |
| ObjectMetadata.AdmitLabels | gokart/gcs_obj_metadata_client.py:80-89 | the budget loop returns `Admit(all, 0)`, the greedy prefix under 8 KiB |
| ObjectMetadata.ApplyLabels | gokart/gcs_obj_metadata_client.py:91-94 | the copy-and-assign loop returns `Apply(m, labels)` |
| ObjectMetadata.AdmitWithinBudget | gokart/gcs_obj_metadata_client.py:80-89 | the admitted labels' UTF-8 sizes sum to at most 8 × 1024 |
| ObjectMetadata.AdmitIsPrefix | gokart/gcs_obj_metadata_client.py:83-89 | the admitted labels are a prefix of the merged list with values as `str()`, and the first label left out would have overflowed the budget |
| ObjectMetadata.AdmitAllWhenFits | gokart/gcs_obj_metadata_client.py:83-89 | when all labels fit within the budget, every one is admitted |
| ObjectMetadata.ApplyLookup | gokart/gcs_obj_metadata_client.py:91-93 | a key is in the patched map iff it was before or a label names it, and its value comes from the last label naming it, else from the original |
| ObjectMetadata.ApplyIdempotent | gokart/gcs_obj_metadata_client.py:91-93 | applying the same labels twice equals applying them once |
| ObjectMetadata.UserLabelWins | gokart/gcs_obj_metadata_client.py:91-93 | when all labels fit, a user label's value is what the patched metadata holds for its key |
| ObjectMetadata.LaterLabelWins | gokart/gcs_obj_metadata_client.py:114-120 | of labels appended after the parameter labels, the last one naming a key sets that key when all labels fit |
| ObjectMetadata.PatchDecision | gokart/gcs_obj_metadata_client.py:30-46 | no object means no patch; a merge error is reported; otherwise a patch from the original to `PatchedMetadata`'s entries is issued iff they differ, and no parameters never patch |
| ObjectMetadata.PatchIffSomeLabelChanges | gokart/gcs_obj_metadata_client.py:41-46 | a patch is issued iff some admitted label, the last naming its key, brings a key or value the original metadata lacks |
| ObjectMetadata.ReannotationIssuesNoPatch | gokart/gcs_obj_metadata_client.py:41-46 | annotating the patched object again with the same parameters issues no patch |
| ObjectMetadata.MergedAllKept | gokart/gcs_obj_metadata_client.py:104-110 | with only kept parameters the merge succeeds with one label per parameter in order |
| ObjectMetadata.TwoLargeParams | test/test_gcs_obj_metadata_client.py:130-139 | two 5000-byte parameters patch empty metadata to only `param1` |
| ObjectMetadata.TwoLargeAdmit | test/test_gcs_obj_metadata_client.py:130-139 | the budget loop admits only `param1` of the two 5000-byte labels |
| ObjectMetadata.CollidingLabels | test/test_gcs_obj_metadata_client.py:141-149 | when a parameter and a user label share a key, the user label's value ends up in the metadata |
| ObjectMetadata.CollidingMerge | gokart/gcs_obj_metadata_client.py:114-120 | the colliding user label is appended after the parameter label with the same key |
| ObjectMetadata.CollidingAdmit | gokart/gcs_obj_metadata_client.py:83-89 | both colliding labels are admitted when they fit |
| ObjectMetadata.CollidingApply | gokart/gcs_obj_metadata_client.py:91-93 | the later of two labels with one key wins |
| TaskTree.TaskId | gokart/tree/task_info_formatter.py:24-25 | the id is the name, an underscore, then the unique id |
| TaskTree.TaskTitle | gokart/tree/task_info_formatter.py:27-28 | the title is `(complete) name[`, then the unique id and `]`, with nothing in between |
| TaskTree.TaskDetail | gokart/tree/task_info_formatter.py:30-31 | the detail is the parameter rendering and the output list, followed directly by the time and the task log |
| TaskTree.TreeInfo | gokart/tree/task_info_formatter.py:104-128 | output starts with newline, indent, branch marker and title; an already-visited task under `abbr` renders only the `└─- ...` line and keeps the visited set; otherwise the detail follows the title exactly when requested |
| TaskTree.TreeInfoText | gokart/tree/task_info_formatter.py:105-128 | an entry that is not abbreviated is the head, the detail exactly when requested, then the children's text at the deeper indent, with the task's id visited first under `abbr` |
| TaskTree.MakeTreeInfo | gokart/tree/task_info_formatter.py:104-128 | the recursive method returns the text and the visited set that `TreeInfo` defines |
| TaskTree.AppendChildrenInfo | gokart/tree/task_info_formatter.py:125-127 | the children loop appends each child's rendering in order, the last with `last = true`, threading the visited set |
| TaskTree.NoAbbrKeepsVisited | gokart/tree/task_info_formatter.py:114-117 | without `abbr` the visited set is never changed |
| TaskTree.NoAbbrKeepsVisitedChildren | gokart/tree/task_info_formatter.py:125-127 | rendering children without `abbr` leaves the visited set unchanged |
| TaskTree.TableList | gokart/tree/task_info_formatter.py:131-142 | an already-visited root gives `[]` and an unchanged set; otherwise the root's record comes first |
| TaskTree.MakeTreeInfoTableList | gokart/tree/task_info_formatter.py:131-142 | the recursive method returns the list and visited set that `TableList` defines |
| TaskTree.TableListIds | gokart/tree/task_info_formatter.py:131-142 | no id appears twice in the list, every listed id was unvisited on entry, and the set afterwards is the old set plus the listed ids |
| TaskTree.TableListChildrenIds | gokart/tree/task_info_formatter.py:139-141 | the same three facts hold for the children's concatenated lists |
| TaskTree.AbbrVisitsLikeTableList | gokart/tree/task_info_formatter.py:114-117 | with `abbr`, the tree rendering visits exactly the tasks the table list visits |
| TaskTree.TaskIdInjective | gokart/tree/task_info_formatter.py:24-25 | for names without '_', equal task ids mean equal name and unique id |
| TaskTree.SharedTaskId | gokart/tree/task_info_formatter.py:131-135 | tasks `A_B[c]` and `A[B_c]` share an id, so the table list drops the child |

## Left out

- Lock protocol: the lock wrappers (`wrap_load_with_lock`, `wrap_dump_with_lock`, `wrap_remove_with_lock`) are modelled as pass-through calls that record an event. Mutual exclusion, timeouts and the existence-check policy inside the dump lock are not modelled, because they belong to the lock module, which is not part of this model.
- Concurrency of any kind: the model is sequential.
- File processors (`make_file_processor`, pandas and pickle codecs): a single-file target stores the object itself as a pickled blob, so serialisation is the identity.
- The backing store (luigi targets, `ObjectStorage`, the zip client): it is an abstract map of files plus a set of directories. The archive holds exactly the two fixed scratch files.
- `os.makedirs` creates only the named directory. Parent directories are not tracked.
- `last_modification_time` and `path()`: not modelled, since they only query the backend.
- `_exists` is modelled as the presence of the target's file.
- `hashlib.md5` in the scratch-directory name is a digest function passed as a parameter.
- The annotation call at gokart/target.py:128-131 passes keyword arguments that `add_task_state_labels` does not accept. It is modelled as an `Annotated` event, and the two signatures are not reconciled.
- GCS client plumbing in `add_task_state_labels` (bucket parsing, get, `makepatch`, error logging): only the decision to patch is modelled.
- Targets.Target.DumpModel: only the save function can fail. The nested dump of `load_function.pkl` and `make_archive` go to the backing store and never fail in the model, and a save function that raises after writing part of model.pkl is modelled as writing nothing.
- Targets.Target.LoadModel: the load function is called with the model path. The model applies it to the bytes the save function produced for that file.
- `df.values.nbytes` is an input number, not computed from the table.
- Emptiness of a table is modelled as "no rows". A pandas frame with rows but no columns is not distinguished.
- The lock key derivation inside `make_task_lock_params` is not part of this model: the lock parameters are kept as the pre-suffix path and the unique id they are built from.
- Chunking.Load: the directory listing is taken as the fragments present in the directory. Glob metacharacters (`*`, `?`, `[`) in the directory name, which would change what `glob` lists, are not modelled.
- Parameter values are modelled by their `str()` rendering and, for the user-label entry, their dict items. `dict()` of anything but a dict or the empty string is modelled as an error.
- Label keys are strings only.
- Targets.Truthy: only `None` is falsy for a load function.
- `parameter_key_set` in `_merge_with_user_provided_labels` only feeds a log message. It is not modelled.
- Logging calls throughout are not modelled.
- ObjectMetadata.CollidingLabels: states the collision test at line 148 for one parameter and one user label with a shared key, not for the test's full fixture, which is not part of this model.
- TaskTree.TaskDetail: `params` and `task_log` are opaque strings. `ListRepr` does not reproduce Python's `repr` escaping of list items: backslashes and non-printable characters are not escaped, and items containing `'` are not switched to double quotes.
- `make_task_info_tree` and `_make_requires_info`: not modelled, because they depend on `TaskOnKart`, which is not part of this model, and on `task.complete()` I/O.
- gokart/run.py, gokart/slog_config.py, gokart/gokart_logger.py, gokart/required_task_output.py and slog_example.py: command-line and logging plumbing outside the persistence core.
