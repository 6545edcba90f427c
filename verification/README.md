# Staff Graded Assignment block — Dafny model

A model of the pure logic of the edx-sga XBlock (`edx_sga/edx_sga.py`). Students
upload one file per assignment; staff list every student's submission and grade.
The model covers five pieces:

- where a submission is stored: the location URL without its `i4x://` scheme,
  then `/`, the SHA-1 hex digest and the filename's extension, following POSIX
  `os.path.splitext` (`StoragePath`);
- the per-student record and the view of it that students see (`SgaBlock`);
- the upload transition: the four upload fields are replaced together and the
  blob is saved only when its path is not already in storage (`SgaBlock`, `BlobStore`);
- reading a file in 8192-byte blocks until an empty read, for hashing and for
  downloading, with the stream rewound after hashing (`ChunkedRead`);
- the staff grading list, the staff-interface gate, the settings handler and
  `max_score` (`StaffGrading`, `SgaBlock`).

Storage is a `map<string, seq<byte>>`. A file is its name, its bytes and a read
position. SHA-1 (FIPS 180-4), the MIME-type guess and the clock are parameters
of the upload. The per-student state query is a sequence of already-decoded
state dictionaries.

Files: `wrappers.dfy` (Option, Result), `json.dfy` (JSON values),
`storage_path.dfy`, `chunked_read.dfy`, `blob_store.dfy`, `sga_block.dfy`,
`staff_grading.dfy`.

## Model

| member | source | states |
|---|---|---|
| `StoragePath.FileStoragePath` | edx_sga/edx_sga.py:231-235 | succeeds exactly when the URL starts with `i4x://`; the path starts with the URL without the scheme, then `/` and the digest, and ends with the filename's extension |
| `StoragePath.RFind` | edx_sga/edx_sga.py:234 | `str.rfind` as `splitext` uses it: the index holds the character and no later index does, or -1 |
| `StoragePath.Ext` | edx_sga/edx_sga.py:234 | the extension is a suffix of the filename; it is empty or starts with `.`; it holds no `/` and no other `.` |
| `StoragePath.ExtSound` | edx_sga/edx_sga.py:234 | a non-empty extension is a suffix that starts with the last dot, lies after the last `/`, and has a non-dot character before it in the same path component |
| `StoragePath.ExtComplete` | edx_sga/edx_sga.py:234 | any suffix with that shape is the extension `splitext` returns |
| `StoragePath.ExtEmptyIff` | edx_sga/edx_sga.py:234 | a filename has no extension exactly when no suffix has that shape (for example `.bashrc`) |
| `StoragePath.ExtExamples` | edx_sga/edx_sga.py:234 | `report.pdf` gives `.pdf`; `archive.tar.gz` gives `.gz`; `.bashrc`, `..hidden`, `notes` and `dir.d/notes` give no extension |
| `StoragePath.SamePathIff` | edx_sga/edx_sga.py:231-235 | for one location and digests of one length, two uploads get the same path exactly when their digests and extensions agree; this is the deduplication key |
| `StoragePath.PathDirectoryIsLocation` | edx_sga/edx_sga.py:233 | when the digest has no `/`, the path's last `/` sits right after the location, so every blob of a block lives directly in that block's directory |
| `ChunkedRead.Read` | edx_sga/edx_sga.py:241 | `file.read(n)` returns at most n bytes; it returns nothing only at the end; the bytes returned followed by what is left are what was left before |
| `ChunkedRead.Blocks` | edx_sga/edx_sga.py:241 | the blocks yielded until the first empty read are non-empty and at most n bytes; all but the last are exactly n bytes; together they are everything from the position on |
| `ChunkedRead.ReadUntilEmpty` | edx_sga/edx_sga.py:241-242 | the read loop as a loop: it yields exactly those blocks, their concatenation is the rest of the file, and it stops at the end of the file |
| `ChunkedRead.FeedAll` | edx_sga/edx_sga.py:240-242 | feeding blocks one by one to the SHA-1 context feeds exactly their concatenation |
| `ChunkedRead.GetSha1` | edx_sga/edx_sga.py:238-244 | the digest is SHA-1 of every byte from the position on; afterwards the stream is at position 0 and its full content is readable again |
| `ChunkedRead.HashInputIndependentOfBlockSize` | edx_sga/edx_sga.py:239-242 | the bytes hashed are the same whatever block size is used |
| `BlobStore.SaveIfAbsent` | edx_sga/edx_sga.py:189-190 | afterwards the path is stored and no other path is added; every existing blob is kept unchanged; the given bytes are written only when the path was absent |
| `BlobStore.SaveIfAbsentIdempotent` | edx_sga/edx_sga.py:189-190 | a second save of a path, with any bytes, changes nothing |
| `BlobStore.Open` | edx_sga/edx_sga.py:203 | opening gives a stream at position 0 over the stored bytes exactly when the path is stored |
| `SgaBlock.StudentState` | edx_sga/edx_sga.py:115-129 | the only key is `uploaded`; it is null exactly when the digest is `None` or empty; otherwise it is an object whose only key is `filename`, holding the stored filename |
| `SgaBlock.StudentStateHidesRecord` | edx_sga/edx_sga.py:115-129 | two records that agree on whether a digest is present and, if so, on the filename get the same view; the digest, MIME type, timestamp and score never show |
| `SgaBlock.UploadAssignment` | edx_sga/edx_sga.py:180-191 | fails exactly when the location is not an `i4x://` URL; on success the digest, filename, MIME type and timestamp are replaced by the new ones, the score, settings and location are unchanged, the response is the new student view, and the file's full content is saved at the derived path unless a blob is already there, with no other blob touched |
| `SgaBlock.Download` | edx_sga/edx_sga.py:201-208 | succeeds exactly when the blob exists; the body's blocks are non-empty, at most 8192 bytes and concatenate to the blob; it passes the MIME type to the response; the disposition is `attachment; filename=` followed by the filename |
| `SgaBlock.DownloadAssignment` | edx_sga/edx_sga.py:194-199 | a non-`i4x://` location fails first; then a missing digest or filename fails; otherwise it succeeds exactly when the blob at the record's path exists, and returns that blob with the record's MIME type and filename |
| `SgaBlock.UploadThenDownload` | edx_sga/edx_sga.py:180-199 | when no different blob already sat at the path, downloading right after an upload returns the uploaded bytes, MIME type and filename |
| `SgaBlock.SameContentSharesBlob` | edx_sga/edx_sga.py:187-190 | two students who upload the same bytes with the same extension share one blob: the second save is skipped, at most one path is added, and each record keeps its own filename and the same digest |
| `SgaBlock.UploadsSharePathIff` | edx_sga/edx_sga.py:182-188 | when SHA-1 yields 40-digit hex digests, two uploads to one block get the same storage path exactly when their digests and filename extensions agree |
| `SgaBlock.UploadBlobInLocationDirectory` | edx_sga/edx_sga.py:187-190 | when SHA-1 yields hex digests, the only blob an upload adds sits directly in the directory named by the block's location |
| `SgaBlock.FreshBlock` | edx_sga/edx_sga.py:54-129 | with the default field values, the student view is `{"uploaded": null}`, downloading the own file fails, and the maximum score is 100 |
| `SgaBlock.ShowStaffGradingInterface` | edx_sga/edx_sga.py:225-228 | shown only when the runtime says the user is staff; never shown in a studio preview (no user id); shown whenever both hold |
| `SgaBlock.SaveSga` | edx_sga/edx_sga.py:175-177 | each of `display_name`, `points` and `weight` takes the value sent for it, or keeps its old value when none was sent; the student state and location are unchanged |
| `SgaBlock.SaveSgaIdempotent` | edx_sga/edx_sga.py:175-177 | saving the same data twice equals saving it once; keys other than the three setting names have no effect |
| `SgaBlock.MaxScoreFollowsPoints` | edx_sga/edx_sga.py:94-95 | the maximum score is the `points` value last saved, and an upload does not change it |
| `SgaBlock.UploadCommutesWithSaveSga` | edx_sga/edx_sga.py:175-185 | uploading and saving settings touch disjoint fields, so either order gives the same block |
| `StaffGrading.Assignments` | edx_sga/edx_sga.py:132-148 | one entry per module, in query order; each entry copies the module id, username and full name, and copies `uploaded_filename`, `uploaded_timestamp` and `score` from the state, with null for a missing key |
| `StaffGrading.StaffGradingData` | edx_sga/edx_sga.py:143-149 | the `assignments` list has one entry per queried module, each describing the module at the same index |
| `StaffGrading.AssignmentsConcat` | edx_sga/edx_sga.py:148 | the list for a concatenated query is the concatenation of the lists, so order is preserved |
| `StaffGrading.AssignmentsUnique` | edx_sga/edx_sga.py:132-148 | any list with one describing entry per module, index by index, is the list the block returns |

## Left out

- Rendering: `student_view`, `studio_view`, `_resource`, templates, `Fragment` and the handlers' `Response` wrappers (lines 97-113, 151-172, 221-223, 247-250) are user-interface glue.
- `staff_download` (lines 210-219) is not modelled. It looks a module up through the ORM and decodes its JSON state, and then does what `download` does. It checks no staff permission and does not handle a missing module.
- The `StudentModule` ORM query and `json.loads(module.state)` are not modelled. `StaffGradingData` takes the query result as a sequence of decoded state dictionaries.
- Django `default_storage` and `File` are not modelled. Storage is a map from path to bytes. Storage errors other than a missing blob are not modelled.
- `hashlib.sha1`, `mimetypes.guess_type` and `_now()` are parameters of the upload. Their internals are not modelled. SHA-1 collision resistance cannot be proved.
- `request.params['assignment']` is not modelled. The uploaded file is a parameter, so a request without that part, which raises `KeyError`, is not represented.
- UploadAssignment: models the intended handler, not the code as written. Line 186 calls the undefined `self.store_file`, so the handler as written always raises before saving. Line 190 saves `File(file)`, where `file` is not the uploaded file. When the upload starts at position 0, the model saves the bytes of the uploaded file it just hashed, after the rewind; from any other position it hashes the bytes from that position on but saves the whole file. The model also does the record update and the save as one transition. The code assigns the fields (lines 182-185) before it saves (lines 189-190). A write order that never leaves a record pointing at a missing blob would save first. Neither order is claimed.
- UploadThenDownload: assumes that no different blob was already stored at the derived path. This is the SHA-1 collision-freedom the deduplication relies on, and it cannot be proved.
- Download: the body is the finite sequence of blocks the lazy iterator yields. The model does not cover laziness, that the iterator cannot be restarted, or closing the file.
- Floats: `score` is a `real`, so float rounding is not modelled. The `min: 0` on lines 50, 57 and 66 is only an editor hint, so no score bound is claimed. `display_name`, `points` and `weight` are JSON values, because `save_sga` stores whatever value it is sent without converting it.
- Only POSIX `os.path.splitext` is modelled. The Windows variant also splits on `\`.
- ShowStaffGradingInterface: models `user_is_staff` as an optional boolean. In Python, `is_course_staff and not in_studio_preview` returns the bool `not in_studio_preview` whenever `user_is_staff` is truthy, so a truthy value that is not a bool behaves like `True`. Only a falsy value that is not a bool (`None`, `0`, `""`) comes back as itself; the model returns `false` for it.
- The code has no handler that sets `score`, no staff-authorization check on `staff_download`, and no dedicated "no submission" or "invalid upload" errors; the model adds none of them. A download with no digest fails only because `None` reaches string code; the model reports this as `NoneArgument`.
- The code returns grading entries in the order the state query yields them, and the model states exactly that order; the order of the query itself belongs to the database and is not modelled.
