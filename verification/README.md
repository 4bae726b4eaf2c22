# A model of grizz-it/vfs: the file editor and the path check

This project models two parts of the PHP virtual file system library
grizz-it/vfs in Dafny, and proves properties about them.

**FileIterable** is a random-access editor over one open file. The file is
seen either as fixed-width byte chunks (mode `chunk`) or as lines ending in a
newline (any other mode string). It has get, exists, set, unset and append by
array index, and a forward iterator with current, key, next, rewind and valid.

- The open handle is a `Stream` value: the file's bytes (`seq<bv8>`) and the
  file pointer.
- Each stream call the editor makes (fseek, fread, fgets, fwrite, ftruncate)
  is a pure function on that value. So is the editor's private end-of-file
  probe.
- The editor is an immutable `Editor` record holding:
  - the stream;
  - the mode;
  - the chunk width or fgets bound;
  - the lazily learned line index, where entry j is the offset at which line
    j starts;
  - the iterator's cursor;
  - a closed flag.
- Every public method is a transition that returns
  `Step(result, next editor)`. Exceptions are explicit `Error` values.

**LocalFileSystem** guards every operation with the same two steps.

- `toRealPath` joins the caller's path to the root and normalises it
  lexically:
  - one left-to-right pass of the regular expression drops `segment/../`
    pairs and doubled separators;
  - then `/./` is replaced by `/`.
- `inBoundary` accepts the result only when it still starts with the root.

The model does both with an explicit string scanner. Each path-taking
operation is modelled as the OS call it would make, and that call is
produced only after its boundary checks pass.

Modules:

- `Stream` (stream.dfy): the file handle and the stream calls.
- `LineIndex` (line_index.dfy): the line index and mapToLine.
- `FileIterable` (file_iterable.dfy): the editor.
- `FileIterableProperties` (file_iterable_props.dfy): the following
  properties:
  - reads after writes;
  - deletion;
  - the index a fresh editor learns;
  - a whole foreach traversal with random access in the loop body.
- `LocalFileSystem` (local_file_system.dfy): toRealPath, inBoundary, and the
  operations that check paths.
- `LocalFileSystemProperties` (local_file_system_props.dfy): which paths are
  accepted, including accepted paths that still leave the root.

Facts about the code that shape the model:

- The line index is not strictly increasing. A last-line write that
  shortens the file is not followed by a reset. It leaves later entries
  pointing at or past the end of the file, and entries at the end of the
  file repeat. The model therefore assumes only that entry 0 is 0, and the
  fgets chain that mapToLine records.
- Only the staged line rewrite and append reset the index to {0: 0}. A
  chunk write, an in-place line write, a last-line write and a pad write
  all keep it.
- Line-mode exists(i) counts the end-of-file offset that mapToLine records
  as a line. So a fresh editor says line i exists for every i up to the
  number of records (one more line than there are records), and always for
  line 1.
- Under PHP 8, the staged line rewrite of a line other than 0 whose index
  entry is 0 calls fread with length 0, which raises a ValueError after the
  pointer has been rewound. Such an entry arises when an earlier mapToLine
  ran over an empty file. The model returns the error `ZeroLengthRead`
  there, with the file unchanged.

## Model

| member | source | states |
|---|---|---|
| Stream.Read | src/Component/File/FileIterable.php:178 | fread of n ≥ 1 bytes returns the bytes from the pointer, at most n, and none at or past the end; the pointer moves by what was read; length 0 is refused, as PHP 8 refuses it |
| Stream.ProbeEnd | src/Component/File/FileIterable.php:98-105 | the private feof answers true exactly when the pointer is at or past the end of the file, and leaves the pointer where it was |
| Stream.Write | src/Component/File/FileIterable.php:211 | fwrite overwrites at the pointer and extends the file when needed; a pointer past the end leaves a zero-filled gap; the bytes before the pointer and after the written ones are kept; writing the empty string changes nothing, not even past the end |
| Stream.Truncate | src/Component/File/FileIterable.php:219 | ftruncate makes the file exactly n bytes long, keeping its first bytes or padding with zeros, and does not move the pointer |
| Stream.Seek | src/Component/File/FileIterable.php:177 | fseek moves the pointer to the given offset, past the end included, and does not touch the bytes |
| Stream.SeekEnd | src/Component/File/FileIterable.php:203 | fseek to SEEK_END puts the pointer at the end of the file and does not touch the bytes |
| Stream.WriteAtEnd | src/Component/File/FileIterable.php:203-204 | seeking to the end and writing appends exactly v, with no padding |
| Stream.WriteLast | src/Component/File/FileIterable.php:218-219 | a write followed by a truncate at the pointer makes v the end of the file |
| Stream.NextLine | src/Component/File/FileIterable.php:149 | fgets stops just past the first newline, after limit - 1 bytes, or at the end of the file, whichever comes first, and always advances inside the file |
| Stream.NextLineIs | src/Component/File/FileIterable.php:149 | any stopping point with those three properties is the one fgets picks, so a record is determined by its bytes |
| Stream.Gets | src/Component/File/FileIterable.php:183 | fgets returns false exactly at or past the end, and otherwise returns the bytes up to where it stops |
| Stream.TrimEol | src/Component/File/FileIterable.php:183 | trim with PHP_EOL returns a contiguous part of its input with nothing but newlines before and after it, and no newline at either of its own ends; a value without newlines comes back unchanged |
| Stream.TrimEolRecord | src/Component/File/FileIterable.php:183 | a value without newlines, written with its newline, trims back to the value |
| Stream.ReplaceContents | src/Component/File/FileIterable.php:244-247 | the final copy of a staged rewrite leaves the file exactly equal to the temporary buffer |
| LineIndex.Extend | src/Component/File/FileIterable.php:148-156 | the loop keeps the known entries and adds at most k more; each new entry is where fgets from the previous one stops; it stops early only when the end of the file is reached |
| LineIndex.MapToLine | src/Component/File/FileIterable.php:138-157 | a known target changes nothing; otherwise the index only grows past its old last entry, by contiguous entries that follow the fgets chain and do not decrease; it stops at the target or at the end of the file, with the pointer at the last entry |
| LineIndex.RecordCountLength | src/Component/File/FileIterable.php:148-156 | the number of fgets steps from an offset to the end is the number of records a traversal from there yields |
| LineIndex.ExtendLength | src/Component/File/FileIterable.php:148-156 | the loop adds exactly min(k, max(1, records left)) entries |
| LineIndex.ExtendStops | src/Component/File/FileIterable.php:150-153 | the loop adds a single entry when the first fgets reaches the end, and at most one record was left |
| LineIndex.ExtendContinues | src/Component/File/FileIterable.php:150-155 | otherwise the loop carries on from the newly recorded offset with one record fewer ahead |
| LineIndex.ExtendOverNewlines | src/Component/File/FileIterable.php:148-156 | over a run of k newlines after the last known offset the loop learns exactly k lines, the last just past the run |
| LineIndex.MapOverNewlines | src/Component/File/FileIterable.php:138-157 | mapToLine(target) over newlines up to the target learns the target just past them |
| LineIndex.NextLineInPrefix | src/Component/File/FileIterable.php:149 | bytes written after a final newline do not move where fgets stops inside the old file |
| LineIndex.ExtendAcrossPrefix | src/Component/File/FileIterable.php:148-156 | over a file that had bytes written after its final newline, the loop takes one step per record of the old file and its last entry is the old end of the file |
| LineIndex.MapAcrossPrefix | src/Component/File/FileIterable.php:138-157 | from a fresh index over such a file, mapToLine(n), n the number of old records, learns line n at the old end of the file |
| FileIterable.ModeOf | src/Component/File/FileIterable.php:124 | chunk mode is selected exactly by the string "chunk"; every other string means line mode |
| FileIterable.Open | src/Component/File/FileIterable.php:59-68 | a fresh editor is well formed, at offset 0, with the index {0: 0} and the cursor at 0 |
| FileIterable.Close | src/Component/File/FileIterable.php:85-90 | after close the handle is closed and nothing else changes |
| FileIterable.OffsetExists | src/Component/File/FileIterable.php:116-131 | a non-integer key raises before any I/O; chunk mode answers c·i < size of the file; in line mode, a known index answers true without I/O, and otherwise the answer is whether mapToLine learned the key; the file is never changed |
| FileIterable.OffsetGet | src/Component/File/FileIterable.php:168-184 | a non-integer key raises before any I/O; in chunk mode a chunk inside the file is returned, and null past the end; in line mode the trimmed record at the learned offset is returned, and an unlearned line is an error; the file is never changed |
| FileIterable.ReadChunk | src/Component/File/FileIterable.php:176-178 | a chunk read returns the chunk's bytes when it starts inside the file, and null otherwise |
| FileIterable.ReadLine | src/Component/File/FileIterable.php:181-183 | a line read learns the index up to the line and returns the trimmed record at its offset |
| FileIterable.CopyChunks | src/Component/File/FileIterable.php:236-241 | the chunk copy loop collects exactly the bytes from the pointer to the end |
| FileIterable.CopyLines | src/Component/File/FileIterable.php:308-313 | the line copy loop collects exactly the bytes from the pointer to the end |
| FileIterable.StagedChunkRewrite | src/Component/File/FileIterable.php:225-251 | the staged chunk rewrite replaces exactly chunk i's bytes by the value |
| FileIterable.ChunkWrite | src/Component/File/FileIterable.php:199-251 | the four branches together splice the value over chunk i when it starts inside the file, and append the value otherwise |
| FileIterable.HandleChunkWrite | src/Component/File/FileIterable.php:196-257 | a closed handle raises; a failed lock raises and changes nothing; otherwise the result is the splice or the append, and the line index is untouched |
| FileIterable.StagedLineRewrite | src/Component/File/FileIterable.php:294-322 | for line 0 at offset 0, or another line at a positive offset, the staged line rewrite replaces exactly the old record, newline included, by the replacement, and keeps the bytes before and after it; a line other than 0 at offset 0 never reaches it, since WriteKnownLine raises first |
| FileIterable.WriteKnownLine | src/Component/File/FileIterable.php:273-325 | for a known line: the last line is rewritten as the value plus a newline and the file is cut after it; a value as long as the old line is written in place; any other value is written by the staged rewrite, which alone resets the index to {0: 0} and writes "1" instead of a newline for null; it raises ZeroLengthRead, with the file unchanged, exactly when the staged rewrite of a line other than 0 would read 0 prefix bytes; an entry past the end of the file is written after a zero gap |
| FileIterable.RewriteInnerLine | src/Component/File/FileIterable.php:286-324 | for a line followed by more of the file: the in-place write when the lengths agree, otherwise the staged rewrite or, for a line other than 0 at offset 0, the ZeroLengthRead error that leaves the file and the learned index as they were |
| FileIterable.ChunkPrefix | src/Component/File/FileIterable.php:225-232 | the prefix the staged chunk rewrite reads is the c·i bytes before chunk i, none for chunk 0, with the pointer left just after them |
| FileIterable.LinePrefix | src/Component/File/FileIterable.php:294-302 | the prefix the staged line rewrite reads is the bytes before the line, none for line 0, with the pointer left just after them |
| FileIterable.KnownLineWritten | src/Component/File/FileIterable.php:273-325 | the known-line branches amount to one splice of the value and its terminator between the bytes before the line and the records after it, with the outcome LineWritten describes |
| FileIterable.WriteInPlace | src/Component/File/FileIterable.php:287-292 | a same-length line write replaces the old record's bytes exactly and keeps the rest |
| FileIterable.PadToLine | src/Component/File/FileIterable.php:327-341 | a line beyond the index is written as one newline per missing index after the last known line, then the value with no terminator; the index is kept |
| FileIterable.HandleLineWrite | src/Component/File/FileIterable.php:269-347 | a closed handle raises; a failed lock raises and changes nothing; otherwise, on the index learned up to i: a known line inside the file becomes the value plus a newline ("1" for null in the staged rewrite) between the bytes before it and the records after it, and the index is [0] exactly when the staged rewrite ran; a known entry past the end gets a zero gap and then the value; an unknown line gets one newline per missing index after the last known entry and then the unterminated value, with the index kept; the only error is ZeroLengthRead, which changes no byte |
| FileIterable.HandleAppend | src/Component/File/FileIterable.php:356-367 | append adds the raw value in chunk mode; in line mode it adds the value with its newlines trimmed, plus one newline, and resets the index; it takes no lock |
| FileIterable.OffsetSet | src/Component/File/FileIterable.php:380-407 | a bad key or value raises before any I/O; a null key with a string value appends; a null value on a null key is a type error; otherwise the chunk or line write runs, with null becoming "" in chunk mode; no error changes the file; every error other than ZeroLengthRead leaves the editor unchanged, and ZeroLengthRead arises only from a line-mode write under the lock |
| FileIterable.OffsetUnset | src/Component/File/FileIterable.php:418-427 | a non-integer key raises; otherwise unset is offsetSet with null, which in chunk mode removes chunk i's bytes |
| FileIterable.EnsureIteratorPosition | src/Component/File/FileIterable.php:434-448 | the pointer is moved to the start of the cursor's unit; in line mode an unlearned cursor line is an error |
| FileIterable.NoteLineStart | src/Component/File/FileIterable.php:464 | setting an index entry overwrites or appends exactly that entry and keeps all the others |
| FileIterable.Current | src/Component/File/FileIterable.php:455-467 | current yields the cursor's chunk or trimmed record, and in line mode records where the next line starts; the file is not changed |
| FileIterable.Key | src/Component/File/FileIterable.php:474-477 | key returns the cursor |
| FileIterable.Next | src/Component/File/FileIterable.php:484-487 | next advances the cursor by one and changes nothing else: not the file, the pointer or the index |
| FileIterable.Rewind | src/Component/File/FileIterable.php:494-498 | rewind moves the pointer and the cursor to 0 and changes nothing else |
| FileIterable.Valid | src/Component/File/FileIterable.php:505-510 | valid answers whether the cursor's unit starts inside the file, and changes neither the file nor the index |
| FileIterableProperties.ChunkOfSplice | src/Component/File/FileIterable.php:199-223 | after chunk i is spliced with a value at least one chunk wide, or with any value on the last chunk, chunk i is the value's first chunk |
| FileIterableProperties.SpliceReadBack | src/Component/File/FileIterable.php:210-223 | the same at a byte offset: the replaced bytes read back as the value's first c bytes |
| FileIterableProperties.ChunkSetThenGet | tests/Component/File/FileIterableTest.php:75-102 | set(i, v) then get(i) in chunk mode returns v's first chunk, for a chunk inside the file and a value at least one chunk wide or on the last chunk |
| FileIterableProperties.GetChunk | src/Component/File/FileIterable.php:176-178 | a chunk-mode get of a chunk inside the file returns that chunk |
| FileIterableProperties.ChunkAfterRemoval | src/Component/File/FileIterable.php:217-251 | on the bytes: removing chunk i keeps the earlier chunks and shifts every later chunk down by one |
| FileIterableProperties.ChunkUnsetShifts | tests/Component/File/FileIterableTest.php:87-89 | after unset(i) in chunk mode, chunk j is the old chunk j for j < i and the old chunk j + 1 for j ≥ i |
| FileIterableProperties.RecordOfWrittenLine | src/Component/File/FileIterable.php:181-183 | a value without newlines of at most limit − 1 bytes, written with a newline, reads back as the value: fgets takes the value and its newline, or stops at the bound just before the newline |
| FileIterableProperties.RecordWithNewline | src/Component/File/FileIterable.php:181-183 | a value of at most limit − 2 bytes without newlines is read with its newline, which trim drops |
| FileIterableProperties.RecordAtBound | src/Component/File/FileIterable.php:181-183 | a value of exactly limit − 1 bytes without newlines stops fgets at the bound just before its newline and reads back whole |
| FileIterableProperties.KnownLineSet | src/Component/File/FileIterable.php:406 | offsetSet on a line the learned index knows, under the lock, is the known-line rewrite |
| FileIterableProperties.KnownLineStringWrite | src/Component/File/FileIterable.php:273-325 | for a string value, the last-line, same-length and staged branches all produce the same splice of the value and one newline; the only failure is the zero-length prefix read, which changes no byte |
| FileIterableProperties.LineSetSplices | src/Component/File/FileIterable.php:272-324 | set(i, v) on a known line replaces the old record by v and one newline, and keeps everything before and after it; an entry past the end of the file gets a zero gap first; it fails exactly when the staged rewrite's prefix read has length 0, and then the file is unchanged |
| FileIterableProperties.LineSetIndex | src/Component/File/FileIterable.php:320 | when the write is not a staged rewrite of a line other than 0, it succeeds and the line's own index entry survives |
| FileIterableProperties.GetKnownLine | src/Component/File/FileIterable.php:181-183 | a line-mode get of a known line reads the record at its offset |
| FileIterableProperties.WrittenLineReadBack | src/Component/File/FileIterable.php:181-183 | get(i) reads v when the index puts line i where v and a newline sit, for any v without newlines of at most limit − 1 bytes |
| FileIterableProperties.LineSetThenGet | tests/Component/File/FileIterableTest.php:98-103 | set(i, v) then get(i) in line mode returns v, for a known line, including one whose entry lies past the end of the file, and a value without newlines of at most limit − 1 bytes, unless the write reset the index |
| FileIterableProperties.PadThenGet | tests/Component/File/FileIterableTest.php:106-108 | set(i, v) on a line beyond every line the file has, then get(i), returns v, for a value without newlines short enough for one fgets |
| FileIterableProperties.PadSet | src/Component/File/FileIterable.php:327-338 | the pad write leaves the file as the old bytes, a zero gap up to the last known entry, one newline per missing index, and the value, with the index kept |
| FileIterableProperties.GetAfterPad | src/Component/File/FileIterable.php:138-157 | after the pad, mapToLine walks the newlines one line at a time and get(i) lands on the value |
| FileIterableProperties.PaddedLineRecord | src/Component/File/FileIterable.php:181-183 | an unterminated last line without newlines, short enough for one fgets, reads back whole |
| FileIterableProperties.FreshLineExists | tests/Component/File/FileIterableTest.php:71 | on a fresh index, line-mode exists(i) holds exactly for i up to max(1, number of records); in particular exists(0) holds even on an empty file |
| FileIterableProperties.FreshIndexLength | src/Component/File/FileIterable.php:138-157 | from {0: 0}, mapToLine(i) learns exactly 1 + min(i, max(1, records)) entries |
| FileIterableProperties.LineUnsetWritesOne | src/Component/File/FileIterable.php:294-324 | unset of a non-empty line that is not the last turns its bytes and newline into "1", joining the next line, and resets the index; it fails with the file unchanged exactly when the line is not line 0 and its entry is 0 |
| FileIterableProperties.KnownLineDelete | src/Component/File/FileIterable.php:294-324 | deleting a non-empty line that is not the last takes the staged branch, which fails only at a zero-length prefix read |
| FileIterableProperties.LineUnsetLastLeavesNewline | src/Component/File/FileIterable.php:279-285 | unset of the last line leaves an empty line, a lone newline, and keeps the index |
| FileIterableProperties.ChunkAppendThenGet | src/Component/File/FileIterable.php:356-367 | after an append in chunk mode to a file of n whole chunks, get(n) returns the value's first chunk, or null for an empty value, and every earlier chunk reads as before |
| FileIterableProperties.LineAppendThenGet | src/Component/File/FileIterable.php:356-367 | after an append in line mode to a file that is empty or ends with a newline, get(n), n the number of records a traversal of the old file yields, returns the appended value, for any value without newlines of at most limit − 1 bytes, whatever the lock |
| FileIterableProperties.LineAppendBytes | src/Component/File/FileIterable.php:365-366 | a line-mode append of a value without newlines leaves the old bytes, the value and one newline, with the index reset to {0: 0} |
| FileIterableProperties.AppendedLineLearned | src/Component/File/FileIterable.php:138-157 | on the reset index, mapToLine(n) learns line n at the old end of the file, where the appended line starts |
| FileIterableProperties.ChunksAfterAppend | src/Component/File/FileIterable.php:356-367 | on the bytes: an append keeps the whole chunks before it and starts the next chunk with the value |
| FileIterableProperties.ChunkSetBytes | src/Component/File/FileIterable.php:196-251 | a chunk-mode set under the lock splices the value over the chunk |
| FileIterableProperties.AppendIgnoresLock | src/Component/File/FileIterable.php:394-397 | append does not depend on the lock's outcome |
| FileIterableProperties.CloseTwice | src/Component/File/FileIterable.php:85-90 | closing twice is the same as closing once |
| FileIterableProperties.Round | src/Component/File/FileIterable.php:455-510 | one foreach round yields the cursor's chunk or record under the cursor as key, advances the cursor by one, keeps the file, and valid tells whether the next unit starts inside the file, whatever the loop body read |
| FileIterableProperties.Probe | src/Component/File/FileIterable.php:168-184 | a read in the loop body keeps the file and the cursor, and only extends the line index |
| FileIterableProperties.ChunkRound | src/Component/File/FileIterable.php:455-461 | yielding chunk i after the chunks before it leaves exactly the chunks from i + 1 to yield |
| FileIterableProperties.LineRound | src/Component/File/FileIterable.php:463-464 | yielding the record at p leaves exactly the records from where fgets stops |
| FileIterableProperties.ChunkRoundStep | src/Component/File/FileIterable.php:434-442 | a chunk-mode round keeps the traversal invariant and gets closer to the end |
| FileIterableProperties.LineRoundStep | src/Component/File/FileIterable.php:444-447 | a line-mode round keeps the traversal invariant and gets closer to the end |
| FileIterableProperties.ForeachRound | src/Component/File/FileIterable.php:455-510 | one round, in either mode, yields the next unit under the next key and gets closer to the end |
| FileIterableProperties.TraversalStarts | src/Component/File/FileIterable.php:494-498 | rewind then valid start a traversal with nothing yielded |
| FileIterableProperties.TraversalEnds | src/Component/File/FileIterable.php:505-510 | when valid says false, everything has been yielded |
| FileIterableProperties.Traverse | tests/Component/File/FileIterableTest.php:127-169 | a whole foreach, with an optional get in the loop body, yields keys 0, 1, 2, … and exactly the file's chunks, or its trimmed records, in order, and leaves the file unchanged |
| LocalFileSystem.RunEnd | src/Component/FileSystem/LocalFileSystem.php:65 | the character class run from p covers only segment characters and ends at the first character outside the class |
| LocalFileSystem.ParentMatch | src/Component/FileSystem/LocalFileSystem.php:65 | the first alternative matches exactly when a non-empty run of segment characters is followed by "/../", and the match is then the whole run plus "/../" |
| LocalFileSystem.Collapse | src/Component/FileSystem/LocalFileSystem.php:65 | the regular-expression pass never makes the string longer |
| LocalFileSystem.ReplaceFrom | src/Component/FileSystem/LocalFileSystem.php:61-63 | str_replace of "/./" never makes the string longer |
| LocalFileSystem.Join | src/Component/FileSystem/LocalFileSystem.php:67-69 | the joined string is root + path when the path starts with "/", and root + "/" + path otherwise |
| LocalFileSystem.ToRealPath | src/Component/FileSystem/LocalFileSystem.php:59-72 | normalisation never lengthens the joined string |
| LocalFileSystem.InBoundary | src/Component/FileSystem/LocalFileSystem.php:43-50 | the answer is true exactly when the normalised path starts with the root; otherwise InaccessibleFileException names the caller's path |
| LocalFileSystem.CheckedPaths | src/Component/FileSystem/LocalFileSystem.php:121-128 | move and copy check two paths and every other operation one; move checks the new name first and copy the destination first |
| LocalFileSystem.EffectOf | src/Component/FileSystem/LocalFileSystem.php:81-235 | each operation makes its own OS call (touch, mkdir, rmdir, rename, file_put_contents with or without FILE_APPEND, fopen 'w', file_get_contents, unlink, copy, filesize, realpath) and passes its content on; the call is given one target per checked path, the normalised forms of exactly the checked paths in the reverse of the order they are checked in; the source path goes through realpath exactly for the operations other than touch, makeDirectory, removeDirectory and put, and a destination never does |
| LocalFileSystem.Guarded | src/Component/FileSystem/LocalFileSystem.php:121-128 | the first refused path raises and nothing after it runs; the OS call happens exactly when every path is accepted |
| LocalFileSystem.Perform | src/Component/FileSystem/LocalFileSystem.php:81-235 | every path-taking operation makes its OS call only after all of its boundary checks pass, and otherwise raises for the first refused path |
| LocalFileSystemProperties.CollapseKeepsPrefix | src/Component/FileSystem/LocalFileSystem.php:65 | where neither alternative matches, the pass keeps the characters |
| LocalFileSystemProperties.ReplaceKeepsPrefix | src/Component/FileSystem/LocalFileSystem.php:61-63 | where no "/./" starts, str_replace keeps the characters |
| LocalFileSystemProperties.CollapseFromSlash | src/Component/FileSystem/LocalFileSystem.php:65 | of a run of separators the pass keeps the last one |
| LocalFileSystemProperties.NoParentMatchInRoot | src/Component/FileSystem/LocalFileSystem.php:65 | under a canonical root, no segment/../ match starts inside the root unless the path begins by climbing out |
| LocalFileSystemProperties.RootKept | tests/Component/FileSystem/LocalFileSystemTest.php:52-55 | under a canonical root, a path that does not begin with "../" or "/../" normalises to the root followed by the rest, so it is accepted, as "/foo.txt" is |
| LocalFileSystemProperties.SegmentDropped | src/Component/FileSystem/LocalFileSystem.php:65 | a segment followed by "/../" is dropped with it |
| LocalFileSystemProperties.SlashDropped | src/Component/FileSystem/LocalFileSystem.php:65 | a separator followed by another one, with no colon before it, is dropped |
| LocalFileSystemProperties.DotDotKept | src/Component/FileSystem/LocalFileSystem.php:65 | a ".." that no "/../" follows is kept |
| LocalFileSystemProperties.ParentSegmentKept | src/Component/FileSystem/LocalFileSystem.php:61-63 | str_replace leaves a ".." segment right after the root in place |
| LocalFileSystemProperties.ParentHopEscapes | src/Component/FileSystem/LocalFileSystem.php:43-72 | "a/../../t" is accepted although it normalises to root + "/../…", a place outside the root |
| LocalFileSystemProperties.DoubleSlashEscapes | src/Component/FileSystem/LocalFileSystem.php:43-72 | "//../t" is accepted although it normalises to root + "/../…" |
| LocalFileSystemProperties.ParentPathCollapsed | src/Component/FileSystem/LocalFileSystem.php:65 | under a root parent/b, the pass turns the root joined with "../t" into parent/t |
| LocalFileSystemProperties.ParentPathNormalised | src/Component/FileSystem/LocalFileSystem.php:59-72 | and normalisation as a whole gives parent/t |
| LocalFileSystemProperties.ParentPathRefused | tests/Component/FileSystem/LocalFileSystemTest.php:50-56 | "../t" is accepted exactly when t starts with the root's last segment b, so "../foo.txt" is refused under a root whose last segment is not a prefix of it |

## Left out

- Negative keys. Keys are natural numbers. In chunk mode fseek to a negative offset fails and the editor goes on at the old pointer. In line mode mapToLine(-1) learns nothing, and FileIterable.php:182 then reads the missing entry, which PHP coerces to 0. Neither is modelled.
- Integer width. Keys and offsets are unbounded here. In PHP a chunk offset c·i beyond PHP_INT_MAX becomes a float, and fseek then raises a TypeError. That case is not modelled.
- Locking. The blocking and contention behaviour of flock, and concurrent writers, are not modelled. The lock is an input saying whether flock(LOCK_EX) succeeded, and LOCK_UN is not modelled.
- Stream mechanics. The following are not modelled: the lifetime of the tmpfile (it is a byte sequence here), fclose and the destructor beyond a closed flag, and stream_get_meta_data, which only builds the exception message.
- PHP coercions. An unset `lineMap` entry is read at FileIterable.php:182 and :445-446. PHP warns and coerces it to 0. The model returns the explicit error `UnmappedLine` instead.
- Closed handles. A stream call on a closed handle is PHP's TypeError. It is modelled as the error `ClosedResource`.
- Zero-length reads. After the ValueError of a zero-length fread, PHP leaves the lock held and the temporary file open. Neither is modelled; the error `ZeroLengthRead` leaves the file unchanged, the pointer at 0 and the learned index in place.
- Null appends. `$file[] = null` passes null to a string parameter, PHP's TypeError. It is modelled as the error `NullAppend`.
- Chunk widths and fgets bounds. A chunk width or fgets bound of 0 or less makes the first fread or fgets raise PHP 8's ValueError. An fgets bound of 1 makes fgets return false without moving the pointer, so the copy loop at FileIterable.php:313-318 never ends. Both are preconditions (a width of at least 1 and a bound of at least 2) rather than modelled errors.
- Line terminator. PHP_EOL is taken to be "\n", as on every platform but Windows. Where it is "\r\n", the writes at FileIterable.php:305 and :362 would add two bytes, the trim calls would strip carriage returns as well, and fgets would still stop at the "\n"; that platform is not modelled.
- OS calls. The calls of LocalFileSystem, such as touch, mkdir, rename and file_put_contents, are recorded as `Effect` values and not performed. What the OS realpath returns is not computed; the model keeps the argument it is given.
- The remaining LocalFileSystem methods. setFileMode, getFileMode, getFileIterable, getDirectoryIterable, list, isReadable, isWriteable, isExecutable, isFile, isDirectory, getPathInfo, getFileInfo and getFileObject go through realpath, so they check their path just as the modelled operations do. They are not modelled separately.
- Other components. FileSystemNormalizer, VoidFileSystemNormalizer, LocalFileSystemDriver, the exception classes and the interfaces only delegate, format messages or declare signatures.
- LocalFileSystemProperties.RootKept: the root "/" itself is not covered. The properties assume a root as realpath returns it other than "/", with no trailing separator.
- FileIterableProperties.LineSetThenGet: does not cover a staged rewrite of a line other than 0. The code resets the index after such a rewrite, so the next get relearns the line from the start. Nor does it cover a value with newlines or of limit bytes or more, which fgets reads as several records.
- FileIterableProperties.LineAppendThenGet: covers only a file that is empty or ends with a newline, and a value with no newline of at most limit − 1 bytes. When the file does not end with a newline the appended value continues its last line, and a value of limit bytes or more is split over several fgets records; the bytes of both cases are stated by HandleAppend.
- FileIterableProperties.ChunkSetThenGet: does not cover a short value on a chunk that is not the last. There the staged rewrite shifts the following bytes, and the chunk reads back as the value followed by the next bytes.
- LocalFileSystemProperties.ParentPathRefused: covers only a rest t with no separator, the shape of the library's own test. It does not cover deeper relative paths.
- LocalFileSystem.Collapse: its own contract states only that the pass never lengthens the string. What it keeps and what it drops is stated by the lemmas in LocalFileSystemProperties.
- LocalFileSystem.ReplaceFrom: its own contract states only the length bound. Which characters it keeps is stated by LocalFileSystemProperties.ReplaceKeepsPrefix and LocalFileSystemProperties.ParentSegmentKept.
- LocalFileSystem.ToRealPath: its own contract states only the length bound. Its results on the paths that matter are stated by LocalFileSystemProperties.RootKept, LocalFileSystemProperties.ParentHopEscapes, LocalFileSystemProperties.DoubleSlashEscapes and LocalFileSystemProperties.ParentPathNormalised.
