# ACDB calibration database: a verified model

The audio calibration database is a file of tagged chunks, tables and offset pools, with a heap of values that
the client has set on top. Most queries run twice: first without a buffer, to learn a size, then with one, walking
the same tables again and writing. This project models the queries where the two walks carry real state, as the
C code has it, and proves that they agree and what their output means.

| module | what it is |
|---|---|
| `Bytes`, `Search` | bytes, words, padding; the insertion sort and the binary search everything relies on |
| `VcpmFormat`, `VcpmBuilder`, `VcpmDecode`, `VcpmFile` | the voice calibration blob: tables in the file, the two-pass builder with five interleaved chunks, a reader that follows every offset, the override law, and stored tables that read back |
| `CalKeys`, `CalFind`, `CalFile`, `CalRefs`, `CalWalk`, `CalPasses` | audio calibration, as values: the difference of two key vectors, the row a vector selects, the reference list by which specific data displaces default data, the walk over subgraphs, two walks in a row, and stored tables that read back |
| `CalResponse`, `CalQuery` | audio calibration, as the code runs: response buffer, scratch buffer, reference list, moving offsets, both passes |
| `CalBlob`, `SubgraphMap`, `SetMap` | records of calibration blobs, which module belongs to which subgraph, and set requests sorted by subgraph |
| `ModuleGroups`, `ProcGroups`, `TagGroups` | tagged modules grouped inside the response buffer, by shifting bytes and by sort, merge and patched counts |
| `CkvList`, `SpfBlob`, `GkvIndex`, `GkvFile`, `ChunkParser` | key vector lists without repetition, SPF properties, the two-level graph key index over stored use cases, the chunk walk |

Files are immutable sequences of bytes; a word is read little-endian. Responses, scratch buffers and client arrays
are arrays, and the context structures are classes whose fields the methods move. A null response buffer is an
array without elements. Loops of the source are loops here, proved against a function on values; what the
source promises is then proved about that function.

Where the code does something other than one would expect, the model follows the code:

- A grouping buffer of exactly the reported size can be refused (`ProcGroups.ReportedSizeRefused`); when it is
  enough is `ProcGroups.ReportedSizeEnough`.
- A subgraph requested twice is found once: the second search starts behind it (`CalWalk.CursorAgrees`).
- Heap data that does not fit is taken for missing, and file data may follow a stray header with a success status
  (`CalResponse.HeapFallsThroughWhen`). A buffer of the reported size excludes this. In a smaller one only such data,
  or heap data of which the last padding is cut off, can hide the lack of room (`CalQuery.CalContext.Query`).
- On a first query a key that is missing from the client's vector leaves old scratch words in the search key. When
  they matter to a search is `CalFind.ScratchDecides`; the size a query reports can then be too small for the data
  query that follows (`CalPasses.SizeTooSmall`), but is not as long as the tables leave each other's words alone
  (`CalPasses.PassesAgree`).
- A size query for key vectors can fail where the data query does not: when the lookup is full and the last vector of a
  table is new (`CkvList.SizeStatus`). Vectors that found no room are then listed again (`CkvList.EnteredIsDedup`).
- A malformed set request is reported as a lack of memory, and an unknown subgraph is an error only if the request
  has records (`SetMap.MapSubgraph`).
- A list of key vectors ends with the status of the last subgraph, even if vectors were found before
  (`CkvList.KeyVectorList.Build`).
- A file with the wrong id passes validation if its type is right, and the other way round
  (`ChunkParser.ValidateFile`).
- The binary search also reads in front of row zero; whatever is there does not change its result.

## Model

| member | source | states |
|---|---|---|
| `Search.BinarySearch` | acdb/src/acdb_utility.c:203-255 | On rows sorted by their first n words the binary search returns exactly the first row a scan from the start would find, or nothing when there is none |
| `Search.CompareSearchKeys` | acdb/src/acdb_utility.c:107-130 | The comparison is the lexicographic order of the first n words, zero exactly for equal prefixes |
| `Search.Sort2` | acdb/src/acdb_utility.c:282-317 | The array ends sorted by its key and is a permutation of what it was; a sorted array stays as it is; an empty one is refused |
| `VcpmBuilder.VcpmBlobInfo.BuildVcpmBlob` | acdb/src/acdb_command.c:7933-8072 | The size query and the data query agree: both report the length of one blob, the data query writes exactly that blob, every chunk cursor ends at its base plus its size, and no byte outside is touched; an unknown subgraph is reported as such |
| `VcpmBuilder.VcpmBlobInfo.GetVcpmSubgraphChunkInfo` | acdb/src/acdb_command.c:7829-7931 | The sizing pass leaves five chunks laid out behind each other for exactly the tables to be delivered, collects the referenced modules, and lists the non-default tables in file order with the default table last |
| `VcpmBuilder.VcpmBlobInfo.GetVcpmSubgraphChunkData` | acdb/src/acdb_command.c:7690-7827 | The data pass, starting from that layout, writes the five chunks with every cursor ending where its chunk does and nothing outside written |
| `VcpmBuilder.VcpmBlobInfo.GetVcpmCalibrationDataTable` | acdb/src/acdb_command.c:7554-7688 | One table is sized or written into four chunks at once; its header is patched behind its objects; tables that lose everything write nothing |
| `VcpmBuilder.VcpmBlobInfo.GetVcpmCalDataObject` | acdb/src/acdb_command.c:7322-7552 | One calibration object: its header is patched in front of its parameters, an object without parameters left is taken back |
| `VcpmBuilder.VcpmBlobInfo.GetVcpmModuleParamPair` | acdb/src/acdb_command.c:6771-6963 | A parameter is skipped exactly when the default table is processed and its module is referenced; otherwise its identifiers are sized or written and its data pool offset is returned |
| `VcpmBuilder.VcpmBlobInfo.GetVcpmParamPayload` | acdb/src/acdb_command.c:6965-7198 | Size, zero error word, payload and zero padding of one parameter, in both passes |
| `VcpmBuilder.VcpmBlobInfo.ReferenceIid` | acdb/src/acdb_command.c:6855-6884 | Adding a module to the reference list adds it to the set of referenced modules, wherever the list compares it |
| `VcpmBuilder.VcpmBlobInfo.DefaultIsReferenced` | acdb/src/acdb_command.c:6885-6916 | The search that also counts references down finds a module exactly if it is referenced, and leaves the set of referenced modules alone |
| `VcpmBuilder.VcpmBlobInfo.GetVcpmCalibrationKeyIDTable` | acdb/src/acdb_command.c:6589-6693 | One key list with its count, sized or written at the key chunk cursor |
| `VcpmBuilder.VcpmBlobInfo.GetVcpmCalibrationKeyValueTable` | acdb/src/acdb_command.c:6695-6769 | One value list with its count, sized or written at the value chunk cursor |
| `VcpmBuilder.VcpmBlobInfo.GetVcpmMasterKeyTable` | acdb/src/acdb_command.c:6372-6553 | The master key table keeps, in file order, exactly the keys that some delivered table uses; using every key copies the table as a whole |
| `VcpmBuilder.VcpmBlobInfo.GetVcpmSubgraphCalTable` | acdb/src/acdb_command.c:6334-6370 | The walk over the records finds the first one of the subgraph |
| `VcpmDecode.ChunksFound` | acdb/src/acdb_command.c:7829-7931 | Walking the chunk sizes of a blob finds five chunks that tile the parameter without gap or overlap |
| `VcpmDecode.DecodeBody` | acdb/src/acdb_command.c:7353-7383 | Following every relative offset of a written body gives back the key lists, value lists and parameters it was built from |
| `VcpmDecode.DecodeBlob` | acdb/src/acdb_command.c:7933-8072 | A query blob names the framework module and parameter of the file and decodes to the tables of the delivery and the master keys they use |
| `VcpmDecode.DeliveryMeans` | acdb/src/acdb_command.c:7843-7880 | The override law: a parameter is delivered under some keys and values exactly if a table with those keys holds it under those values and, for the default table, no other table references its module |
| `VcpmDecode.ReferencedByOthers` | acdb/src/acdb_command.c:6855-6884 | A module is referenced exactly if some non-default table has an object and the first one has it among the identifier pairs that its DEF offset and count lead to, word by word in the file |
| `VcpmDecode.FirstIidsRead` | acdb/src/acdb_command.c:7589-7619 | Table i names a module exactly if it has an object and one of the identifier pairs in the DEF table of its first object, read by that object's offset and count, is of that module |
| `VcpmDecode.DeliveryInOrder` | acdb/src/acdb_command.c:7843-7880 | The delivery is the non-default tables in file order, but for those with nothing to deliver, and behind them what is left of the default table |
| `VcpmDecode.KeptMeans` | acdb/src/acdb_command.c:6885-6916 | Of a list of parameters each is left out on its own, exactly if the table is the default one and its module is referenced; the others keep their order |
| `VcpmDecode.KeptObjsMeans` | acdb/src/acdb_command.c:7589-7612 | An object keeps its values and goes exactly if no parameter is left; the others keep their order |
| `VcpmDecode.UsedKeysMean` | acdb/src/acdb_command.c:6372-6553 | A master key is kept exactly if some delivered table has it among its keys, and order is kept |
| `VcpmFile.TablesReadBack` | acdb/src/acdb_command.c:7554-7620 | The tables of a subgraph, written one behind the other with all that they point to, read back one by one as what was stored |
| `VcpmFile.StoredReferences` | acdb/src/acdb_command.c:6855-6884 | A stored table references exactly the modules of its first object |
| `VcpmFile.RecordReadBack` | acdb/src/acdb_command.c:6334-6370 | A stored subgraph record reads back with its id, major and minor version, its master keys and its tables |
| `VcpmFile.FirstSubgraph` | acdb/src/acdb_command.c:6334-6370 | Of the stored subgraphs the walk finds the first with the id, behind the words of all before it, or none if there is none |
| `CalKeys.DeltaMeans` | acdb/src/acdb_command.c:5892-5958 | The delta names exactly the keys whose value differs between the two vectors, with their new values |
| `CalKeys.DeltaExists` | acdb/src/acdb_command.c:5836-5921 | An incremental query is possible exactly if both vectors have the same keys and not all of the same values |
| `CalKeys.SortedSame` | acdb/src/acdb_command.c:5836-5857 | Sorting a vector without repeated keys changes neither its keys nor any lookup |
| `CalQuery.CalContext.ComputeDeltaCkv` | acdb/src/acdb_command.c:5785-5984 | Status and context for every input: first query, empty new vector, different lengths, different keys, no difference, or the delta; the context changes only on success |
| `CalFind.FindModuleCkv` | acdb/src/acdb_command.c:5535-5769 | The row and module key vector found, or why none, for every combination of query mode, missing keys, delta and empty table, including what the scratch words contribute, and what the search leaves in the scratch buffer; on success the DEF and DOT offsets are the words behind the values of a row of the file, the first with the values searched for |
| `CalFind.RowForMeans` | acdb/src/acdb_command.c:5722-5732 | The row found is the first of the file with these values, and its DEF offset is in front of its DOT offset |
| `CalFile.SelectedMeans` | acdb/src/acdb_command.c:5612-5732 | Of a stored value table a vector with all keys selects the first row that has the value of each key, with the offsets stored there, or nothing if there is none |
| `CalFile.DefRead` | acdb/src/acdb_command.c:5176-5296 | A stored DEF table with its DOT table and its payloads reads back parameter by parameter |
| `CalFind.FindCovered` | acdb/src/acdb_command.c:5612-5667 | With all keys present the scratch buffer does not matter and the row selected by the key values is found |
| `CalFind.ScratchDecides` | acdb/src/acdb_command.c:5612-5641 | A search is independent of left-over scratch words exactly if, on a first query, the vector has all keys of the table or no row starts with the values it has |
| `CalFind.FindScratchFree` | acdb/src/acdb_command.c:5612-5667 | Then it finds what the keys alone decide: nothing if one is missing, and else the row selected |
| `CalFind.SameWords` | acdb/src/acdb_command.c:5612-5641 | Searches that start with buffers which agree in the words the table reads give the same result, and leave buffers that agree wherever they did |
| `CalFind.KeepsWords` | acdb/src/acdb_command.c:5612-5732 | A search leaves every word that it reads as it was, whether it finds a row or not |
| `CalFind.StaleWordsDecide` | acdb/src/acdb_command.c:5612-5641 | Otherwise two passes over an unchanged database can differ: in a whole database of two subgraphs with a table each the second pass finds a row of the first table that the first pass missed |
| `CalFind.IncrementalFinds` | acdb/src/acdb_command.c:5630-5667 | An incremental query finds a row exactly if the new vector selects one and a key of that table changed its value |
| `CalFind.IncrementalComplete` | acdb/src/acdb_command.c:5630-5667 | The row the new vector selects is either found or is the row the prior vector had selected |
| `CalRefs.RunLengthCode` | acdb/src/acdb_command.c:5227-5253 | The reference list is the run-length encoding of the default table: decoding gives its module ids back and no run could be longer |
| `CalRefs.RunsCount` | acdb/src/acdb_command.c:5227-5253 | For a default table sorted by module the list counts the entries of each module, one list entry per module |
| `CalRefs.TakeCounts` | acdb/src/acdb_command.c:5258-5280 | One entry takes exactly one count of its own module, if there is one, and none of any other |
| `CalRefs.AdmitDefault` | acdb/src/acdb_command.c:5255-5290 | The final default pass admits of each module its first entries in table order, as many as counts are left |
| `CalRefs.OverrideLaw` | acdb/src/acdb_command.c:5227-5290 | With D default entries and N entries in the specific tables found, a module gets exactly the first max(0, D - N) of its default entries |
| `CalWalk.CursorAgrees` | acdb/src/acdb_command.c:6149-6219 | Over an ascending table and a sorted request the forward cursor with its rewind finds what a scan from the start finds for every request, exactly if no listed subgraph is requested twice |
| `CalWalk.FirstQueryDelivers` | acdb/src/acdb_command.c:6230-6305 | Whatever the scratch buffer holds, a first query delivers for a subgraph the records of all specific tables found, each with what the ones before have left there, then the default entries left over by the override law |
| `CalWalk.IncrementalQueryDelivers` | acdb/src/acdb_command.c:6230-6305 | An incremental query delivers for a subgraph the records of all tables found, in order |
| `CalWalk.SingleTableDelivers` | acdb/src/acdb_command.c:6230-6305 | A subgraph with a single key table delivers all records of the row found, default or not, on any query and for any scratch buffer |
| `CalWalk.NothingMissed` | acdb/src/acdb_command.c:5630-5667 | Every row the new vector selects in a specific table is delivered in full or is the row the prior vector had selected |
| `CalWalk.QueryDelivers` | acdb/src/acdb_command.c:6170-6318 | A query that does not fail delivers, for a request that lists no subgraph of the table twice, what the tables of each requested subgraph give, in request order |
| `CalWalk.QueryMissesNothing` | acdb/src/acdb_command.c:5630-5667 | In the whole answer of an incremental query every row the new vector selects in a specific table of a requested subgraph is contained in full, or is the row the prior vector had selected |
| `CalWalk.ReferencesFreed` | acdb/src/acdb_command.c:5496-5524 | The reference list never outlives its subgraph unless the whole query fails |
| `CalWalk.StatusMeans` | acdb/src/acdb_command.c:6277-6322 | A query that a table stops ends with its status; another one succeeds exactly if it delivers a record, and otherwise answers that there is nothing |
| `CalWalk.CountedMeans` | acdb/src/acdb_command.c:6277-6315 | A subgraph whose walk does not stop is counted as found exactly if it delivers a record |
| `CalWalk.ErrorMeans` | acdb/src/acdb_command.c:6263-6296 | A query fails otherwise only with the status with which a table of a requested subgraph stops it |
| `CalWalk.HeapFirst` | acdb/src/acdb_command.c:5385-5448 | A record carries what the client has set if the heap has the parameter under the key vector, and the data of the file otherwise |
| `CalWalk.RecordsMean` | acdb/src/acdb_command.c:5307-5328 | Entries are delivered in table order, exactly those of the wanted persistence |
| `CalPasses.PassesAgree` | acdb/src/acdb_command.c:6023-6332 | A second pass, from what the first left in the scratch buffer, delivers the same, if no requested subgraph reads a word that one of them may have changed meanwhile |
| `CalPasses.FreeUndisturbed` | acdb/src/acdb_command.c:5612-5667 | Requests whose tables the scratch buffer cannot decide are such |
| `CalPasses.SameTableUndisturbed` | acdb/src/acdb_command.c:5612-5667 | Requests for one key table are such, with keys missing or not |
| `CalPasses.DefaultAndOneUndisturbed` | acdb/src/acdb_command.c:6230-6305 | Requests for one specific table behind default tables are such, with keys missing or not |
| `CalPasses.SizeTooSmall` | acdb/src/acdb_command.c:5612-5641 | Others are not: of a whole database with two subgraphs the size pass delivers one record and the data pass two |
| `CalQuery.CalContext.TakeReference` | acdb/src/acdb_command.c:5258-5280 | The loop over the reference list takes one count of the first entry for the module, or none |
| `CalQuery.CalContext.BuildReferenceList` | acdb/src/acdb_command.c:5201-5257 | The first default pass stores the run lengths of the default table, or refuses a table too long for the scratch buffer |
| `CalQuery.CalContext.WriteParameter` | acdb/src/acdb_command.c:5393-5494 | One parameter: heap data if the heap has it, file data otherwise; the record has its bytes in the response or its size counted, and the offset, the status and whether heap data went in whole are exact for every buffer size |
| `CalQuery.CalContext.DeliverEntries` | acdb/src/acdb_command.c:5216-5494 | A pass over a table counts or writes exactly the records of the admitted entries of the wanted persistence and leaves the counts of the specification; it can only run out of room if the records do not fit |
| `CalQuery.CalContext.GetSubgraphCalibration` | acdb/src/acdb_command.c:5154-5533 | The three kinds of pass: collect references, deliver, deliver and free the list |
| `CalQuery.CalContext.QueryTables` | acdb/src/acdb_command.c:6230-6305 | The loop over a subgraph, with its extra default round, ends in the state of the pure walk over its tables |
| `CalQuery.CalContext.SeekSubgraph` | acdb/src/acdb_command.c:6178-6211 | The search loop moves the byte offsets exactly as the cursor moves over the records |
| `CalQuery.CalContext.Query` | acdb/src/acdb_command.c:6023-6332 | For every request of well-formed tables and every scratch buffer: the sorted vectors and subgraphs, the status, which is success exactly if a record is delivered and no table stops the walk, and either the size or the bytes of the list of records that the walk delivers, and the scratch buffer left; a buffer that is too small is reported unless heap data that did not go in whole hides it |
| `CalQuery.SizeThenData` | acdb/src/acdb_command.c:6023-6332 | A data query into a buffer of exactly the size the size query reported never asks for more, succeeds exactly if there is a record, and fills it completely with the records, for every request that leaves the scratch words it reads undisturbed; for all others, what the second query answers from the words the first one left |
| `CalQuery.SizeThenRefused` | acdb/src/acdb_command.c:6023-6332 | The request of CalPasses.SizeTooSmall is one of those: the data query asks for more than was reported |
| `CalResponse.Response.WriteBuffer` | acdb/src/acdb_command.c:524-543 | All of the source or nothing is written, and nothing else |
| `CalResponse.Response.WriteHeapData` | acdb/src/acdb_data_proc.c:1138-1187 | A heap record is written in pieces, each checked; how far it gets for any buffer, and the whole record when it fits |
| `CalResponse.Response.WriteFileData` | acdb/src/acdb_command.c:5446-5490 | A file record is written with unwritten padding, which is zero because the buffer was cleared; exact for any buffer |
| `CalResponse.HeapFallsThrough` | acdb/src/acdb_command.c:5393-5405 | A buffer too small for the heap payload can be answered with success and the file payload behind a stray header |
| `CalResponse.HeapFallsThroughWhen` | acdb/src/acdb_command.c:5393-5405 | Exactly when that happens: the heap payload does not fit but the file record fits behind the header already written |
| `CalBlob.BlobToCalData` | acdb/src/acdb_data_proc.c:30-105 | The parser returns the record at the offset and where it ends, or which check failed |
| `CalBlob.CalDataToBlob` | acdb/src/acdb_data_proc.c:107-130 | The plain record is written at the offset and nothing else |
| `CalBlob.ParsePrinted` | acdb/src/acdb_data_proc.c:30-130 | Wherever a printed record lies in a blob, parsing there gives it back and ends behind it |
| `CalBlob.RecordLayout` | acdb/src/acdb_data_proc.c:30-130 | A printed record is module, parameter and size, in the DSP format a zero error code, then the payload |
| `CalBlob.RoundTrip` | acdb/src/acdb_data_proc.c:30-130 | Any list of records printed in either format parses back to the same records |
| `CalBlob.PrintParsed` | acdb/src/acdb_data_proc.c:30-130 | Without error codes, the records of any parsed blob print to that blob continued by zeros as far as the last payload claims, so to the blob itself exactly when the sizes add up |
| `CalBlob.BlobParses` | acdb/src/acdb_data_proc.c:1138-1187 | What a query writes parses back to the delivered records |
| `CalBlob.StepsAgree` | acdb/src/acdb_command.c:9574-9609 | The set path steps from record to record exactly as the parser does |
| `CalBlob.FindInRequest` | acdb/src/acdb_command.c:9574-9609 | The set path finds the first record with the pair, and the slice it hands on parses to that record alone |
| `SubgraphMap.GetSubgraphProcIidMap` | acdb/src/acdb_data_proc.c:139-201 | The first entry of the subgraph is located; an empty chunk answers with no processors and success |
| `SubgraphMap.DoesSubgraphContainModule` | acdb/src/acdb_data_proc.c:211-240 | True exactly if some processor list of the subgraph names the module; the status says whether the subgraph is known |
| `SubgraphMap.GetProcDomainForModule` | acdb/src/acdb_data_proc.c:242-267 | The processor of the first list that names the module |
| `SubgraphMap.FirstEntryMeans` | acdb/src/acdb_data_proc.c:139-201 | The entry that answers for a subgraph is its first one |
| `SubgraphMap.ProcOfMeans` | acdb/src/acdb_data_proc.c:242-267 | A module runs on the processor of the first list that names it |
| `SetMap.MapSubgraph` | acdb/src/acdb_data_proc.c:526-624 | A subgraph gets its records with their total size; a malformed request is reported as a lack of memory, an unknown subgraph only if there are records |
| `SetMap.ConvertSetRequest` | acdb/src/acdb_data_proc.c:514-646 | On success one share per requested subgraph in order, and the map size is the sum of the shares plus four bytes for each |
| `SetMap.ShareHolds` | acdb/src/acdb_data_proc.c:573-608 | A share holds each record of its own modules as often as the request does and no other |
| `SetMap.ShareInOrder` | acdb/src/acdb_data_proc.c:573-608 | Shares keep the request order |
| `SetMap.ShareSize` | acdb/src/acdb_data_proc.c:573-608 | The recorded size of a share is the length of the plain blob its records print to |
| `SetMap.SharesMean` | acdb/src/acdb_data_proc.c:526-624 | The i-th share is that of the i-th subgraph asked for, with its id, its own records as often as in the request, and their printed length |
| `SetMap.MapBytes` | acdb/src/acdb_data_proc.c:573-646 | The shares add up to the length of all their printed records |
| `ProcGroups.GroupedMeans` | acdb/src/acdb_command.c:3191-3326 | The groups are the stable group-by of the visited modules: processors in order of discovery, each with its modules in order of visit |
| `ProcGroups.NothingLost` | acdb/src/acdb_command.c:3191-3326 | The groups together hold exactly as many modules as were visited |
| `ProcGroups.InsertSerializes` | acdb/src/acdb_command.c:3274-3312 | Raising the count and shifting the bytes behind it turns the serialized groups into the serialization with one more module |
| `ProcGroups.MovedIndexes` | acdb/src/acdb_command.c:3313-3325 | Moving the offsets behind the insertion keeps the sorted list of offsets right |
| `ProcGroups.MoveUp` | acdb/src/acdb_command.c:3295-3303 | The overlapping move keeps every word |
| `ProcGroups.TaggedModules.FindProc` | acdb/src/acdb_command.c:3200-3229 | The search in the list finds a processor exactly if it has a group, with the offset of that group |
| `ProcGroups.TaggedModules.AddModule` | acdb/src/acdb_command.c:3200-3326 | One module: the buffer and the index hold the groups with it added, or the check refuses it exactly when the source arithmetic says so |
| `ProcGroups.BuildPayload` | acdb/src/acdb_command.c:3092-3350 | The size pass reports processors and size of the groups; the data pass, on success, leaves exactly the serialized groups and an index that points at each of them; every failure status is exact |
| `ProcGroups.AllVisitsMean` | acdb/src/acdb_command.c:3143-3190 | The walk over the definition lists fails exactly if a subgraph or one of its modules is unknown, and else visits as many modules as the lists have |
| `ProcGroups.VisitMeans` | acdb/src/acdb_command.c:3143-3190 | Visits come in the order of the lists; each is of the module of its place, on the processor that the map of the subgraph of that very list gives for it, with the length of that list |
| `ProcGroups.SizesAgree` | acdb/src/acdb_command.c:3330-3338 | The reported size is the size of the serialized groups |
| `ProcGroups.ReportedSizeRefused` | acdb/src/acdb_command.c:3242-3255 | A buffer of the reported size can be refused: in a file whose one definition list has two modules on two processors |
| `ProcGroups.ReportedSizeEnough` | acdb/src/acdb_command.c:3242-3255 | The reported size is enough exactly if at every discovery of a processor the list in hand is no longer than the modules and processors still to come |
| `TagGroups.TagsResponse.CollectSubgraph` | acdb/src/acdb_command.c:10778-10880 | The rows of a subgraph are collected, all of them and in order, with tags counted once and sizes added |
| `TagGroups.TagsResponse.GetData` | acdb/src/acdb_command.c:10885-11029 | The sorted pairs are written as merged groups with patched counts, filling exactly the computed size |
| `TagGroups.TagsResponse.Build` | acdb/src/acdb_command.c:11031-11086 | Number of tags and size for the requested subgraphs, and the groups when there is a buffer; no tags is an error |
| `TagGroups.MergedMeans` | acdb/src/acdb_command.c:10946-11018 | Merging sorted definitions gives one group for each tag in ascending order with all modules listed under it |
| `TagGroups.SortedGroups` | acdb/src/acdb_command.c:10915-11018 | However the pairs are sorted: one group per tag, the size of the first walk, and of each tag the multiset union of its definitions |
| `TagGroups.AllDefsMean` | acdb/src/acdb_command.c:10778-10880 | Each requested subgraph gives its own definitions, in request order |
| `TagGroups.GroupsOfRequest` | acdb/src/acdb_command.c:10778-11018 | A client reading the written groups finds one for each tag that some row of a requested subgraph has, with the multiset of modules over all positions of the request and all rows for that subgraph and tag |
| `TagGroups.LutRead` | acdb/src/acdb_command.c:10778-10880 | A stored lookup table reads back row by row |
| `ModuleGroups.GroupsReadBack` | acdb/src/acdb_command.c:10946-11018 | Reading written groups by their counts gives them back |
| `CkvList.Zip1` | acdb/src/acdb_command.c:11163-11192 | Two lists of one length are interleaved; other lengths are refused |
| `CkvList.Unzip` | acdb/src/acdb_command.c:11163-11192 | Unzipping a zipped vector gives its keys and values back |
| `CkvList.ListRoundTrip` | acdb/src/acdb_command.c:11481-11531 | A client reading the written list gets every vector back |
| `CkvList.DedupMeans` | acdb/src/acdb_command.c:11481-11498 | Without repetitions the list has every vector once, none left out, in order of first occurrence |
| `CkvList.ListOfRequest` | acdb/src/acdb_command.c:11753-11911 | With room in the lookup a vector is listed exactly if a row of a table of a requested subgraph makes it, and then once |
| `CkvList.SgIdsRead` | acdb/src/acdb_command.c:11753-11911 | A stored subgraph list reads back its ids, whatever destinations lie between them |
| `CkvList.EnteredIsDedup` | acdb/src/acdb_command.c:11311-11350 | With a lookup that can be full the list is that one as long as there is room, and in general exactly if only vectors occur twice that the lookup has room for |
| `CkvList.SizeStatusWithRoom` | acdb/src/acdb_command.c:11481-11538 | As long as the lookup has room a size query tells what a data query tells of the tables |
| `CkvList.KeyVectorList.LookupContains` | acdb/src/acdb_command.c:11206-11290 | The lookup by file offsets contains a vector exactly if it is among the first 1250 listed |
| `CkvList.KeyVectorList.AddTable` | acdb/src/acdb_command.c:11371-11538 | The vectors of one table that the lookup does not know are counted and, in a data query, written; mismatched key counts and a full buffer are reported, and by a size query a full lookup if it meets the last vector |
| `CkvList.KeyVectorList.SearchSubgraph` | acdb/src/acdb_command.c:13155-13233 | The scan finds the first record of the subgraph; a record without entries counts as missing |
| `CkvList.KeyVectorList.Build` | acdb/src/acdb_command.c:11753-11911 | Both passes keep and skip the same vectors for any number of them; each reports its own failures, and the final status is that of the last subgraph |
| `SpfBlob.SpfResponse.BuildProperty` | acdb/src/acdb_command.c:4382-4511 | One property: both branches move the source cursor alike, the data branch writes it with a zero error word inserted and refuses exactly what does not fit |
| `SpfBlob.SpfResponse.BuildProperties` | acdb/src/acdb_command.c:4786-4811 | All properties of a subgraph, written as records in the DSP format, and how many there are |
| `SpfBlob.SpfResponse.BuildSubgraphData` | acdb/src/acdb_command.c:4706-4822 | The properties of all requested subgraphs one behind the other, and their size |
| `SpfBlob.PropsMean` | acdb/src/acdb_command.c:4706-4811 | Each subgraph of the request adds the properties of its first object, in request order |
| `SpfBlob.BlobSize` | acdb/src/acdb_command.c:4805-4808 | The response is longer than the source by four bytes per property |
| `SpfBlob.FindObject` | acdb/src/acdb_command.c:4706-4729 | The search finds the first object of a listed subgraph |
| `GkvIndex.SearchGkvKeyTable` | acdb/src/acdb_data_proc.c:2234-2353 | The first table for the number of keys is searched for the key list; every status is exact |
| `GkvIndex.SearchGkvLut` | acdb/src/acdb_data_proc.c:2355-2448 | The value table is searched for the value list; every status is exact |
| `GkvIndex.TwoLevelIsFlat` | acdb/src/acdb_data_proc.c:2234-2448 | For tables with one key table per key count and no repeated key list, the two searches find what a scan of all graph key vectors finds |
| `GkvFile.UseCasesRead` | acdb/src/acdb_data_proc.c:2283-2345 | The scan over the database sees exactly the use cases stored, key table by key table and row by row |
| `GkvFile.StoredCaseFound` | acdb/src/acdb_data_proc.c:2234-2448 | For a client vector the two searches give the graph of the first stored use case with these keys and values, or nothing if there is none |
| `GkvIndex.OrderForgotten` | acdb/src/acdb_command.c:4100-4106 | However the client lists its keys, the same vector is searched for |
| `GkvIndex.FindUseCase` | acdb/src/acdb_command.c:4066-4121 | The client vector is sorted in the scratch copy, then searched for in two levels; an empty vector succeeds without a search |
| `ChunkParser.GetChunk` | acdb/src/acdb_parser.c:63-113 | For any bytes: a result lies inside the buffer and is the first chunk with the id; otherwise the status says whether the walk reached the end |
| `ChunkParser.FileReadsBack` | acdb/src/acdb_parser.c:63-113 | In a file made of non-empty chunks a lookup sees exactly these chunks |
| `ChunkParser.IntactIsFile` | acdb/src/acdb_parser.c:63-113 | The walk reaches the end exactly for files made of non-empty chunks |
| `ChunkParser.ValidateFile` | acdb/src/acdb_parser.c:115-150 | A file passes exactly if its size is right and its id or its type is |

## Left out

- VCPM: processor filter, hardware accelerator check, offloaded parameters, heap override, the keyless second table and 249 or more tables.
- VCPM: more referenced modules than the scratch buffer holds, which the source does not check; the reference list is unbounded.
- VcpmBuilder.VcpmBlobInfo.BuildVcpmBlob: a buffer smaller than the reported size; the source writes payloads without a check there, so the model asks for the reported size.
- CalQuery.CalContext.Query: processor filter, hardware accelerator check and offloaded parameters, which the plain query does not use.
- CalQuery.CalContext.Query: a non-null buffer whose size is given as zero, which the source treats partly as a size and partly as a data query.
- CalQuery.SizeThenData: the exact size is stated for requests that are CalPasses.Undisturbed, a condition on the requested tables that is sufficient; CalPasses.SizeTooSmall shows that without any the two passes differ.
- CalQuery.CalContext.Query: a first query expects the default table in front of a subgraph's tables, as the source's comment does; without it the offset of another subgraph's default table would be used.
- CalResponse.Response.WriteHeapData: padding is cleared by the source without a check; the model stops at the end of the buffer.
- CalBlob.FindInRequest: a request that ends inside a header, which the set path would read past.
- CalFind.FindModuleCkv: value tables that are not sorted or whose header contradicts the key table; the binary search would miss rows.
- CalRefs.OverrideLaw: default tables that are not grouped by module or name module 0, where a count is that of the first run.
- GkvIndex.FindUseCase: one database; the choice among several is the context manager's. A vector of more than 250 pairs, which the scratch copy cannot hold.
- AcdbSetSubgraphCalibration apart from its search: it repeats the reference list of the retrieval.
- AcdbGetCalDataForSubgraph: the module query walks the same tables with one more filter.
- SetMap.ConvertSetRequest: the copied key vector and memory exhaustion.
- ProcGroups.BuildPayload: more than 250 processors, which the source rules out in a comment.
- TagGroups.TagsResponse.Build: tag definitions of a requested subgraph without modules, on which the source would loop forever, and more pairs or tags than its scratch buffers hold.
- TagGroups.TagsResponse.GetData: a buffer smaller than the size reported; the source recomputes the size and does not see the client's.
- CkvList.KeyVectorList.Build: voice key vectors. The lookup holds 1250 entries where pointers have eight bytes; the source measures it by the size of a pointer.
- CkvList.KeyVectorList.AddTable: tables of more than 125 keys, whose vectors do not fit into the scratch buffer.
- SpfBlob.SpfResponse.BuildSubgraphData: driver properties, a property list of more than 10000 bytes, which the scratch buffer cannot hold, and subgraphs without an object, for which the source searches on through the data pool.
- Reads past the end of the file: the model reads zeros there.
- The heap: an abstract map from key vector, subgraph, module and parameter to payload; UpdateHeap and its linked lists are not part of this model.
- Memory allocation always succeeds; logging, ioctl dispatch, parameter null checks and mutexes are not part of this model.
- Context manager, delta files, AMDB, hardware accelerator queries, partitioned tables and the older partition search.
- 32-bit wrap-around of offsets and sizes: lengths are unbounded; decoding assumes sizes below 2^32.
