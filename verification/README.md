# modal-client core, modelled in Dafny

This project models the pure rules inside the Modal Python client and proves
properties about them. The surrounding network, pickle and asyncio layers are
left out. One Dafny module covers each source file:

- `InputSlots` and `IoManager` cover the per-container input admission and
  output bookkeeping of `modal/_runtime/container_io_manager.py`:
  - the resizable input-slot semaphore and the concurrency configuration;
  - `IOContext` creation, cancellation and batched argument binding;
  - output validation, per-input result items sent in requests of at most 20;
  - `exit_context`, the consecutive numbering of generator data-out chunks;
  - the termination rules of the input-fetching generator.
- `Asgi` is the ASGI event codec of `modal/_serialization.py`. Event dicts map
  to and from an abstract `Asgi` message, with header flattening and the
  default close codes of section 7.4.1 of RFC 6455.
- `Utf8` is the strict UTF-8 decoding (RFC 3629) that the message applies
  when an event gives bytes to one of its string fields.
- `Serialization` covers the rest of `modal/_serialization.py`:
  - class-parameter defaults and validation against a schema;
  - the typed str/int/bytes parameter encoding and its inverse;
  - the data-format dispatch.
- `Blob` is the upload arithmetic of `modal/_utils/blob_utils.py`:
  - multipart tiling and segment read accounting;
  - stream size and the inline-versus-blob threshold;
  - the file-mode mask and S3 host classification;
  - the dispatch on the server's upload mode.
- `Mount` is the path logic of `modal/mount.py`:
  - the client and python-build-standalone mount names;
  - the module file filter and the Modal-path test;
  - remote-path defaulting, immutable `_extend`, and file selection.
- `Sandbox` and `ContainerProcess` cover `modal/sandbox.py` and
  `modal/container_process.py`:
  - exec argument and workdir checks, placement, network access and port order;
  - the status-to-exit-code mapping and the exec deadline;
  - the `returncode` state machine, in which a code once set never changes.
- `Traceback` is the frame-list rewriting of `modal/_traceback.py`.
- `App` and `CliApp` cover `modal/app.py` and `modal/cli/app.py`:
  - the function, class and local-entrypoint registries;
  - the decorator checks and `include`;
  - app-id recognition, rollback version parsing and deployment-history rows.
- `Errors` and `Collections` hold shared vocabulary:
  - Python exception kinds, `Result` and `Option`;
  - Python dicts written as insertion-ordered pair sequences.

A call that raises becomes `Err(kind)`. Server responses, clock readings and
directory listings become parameters.

## Model

| member | source | states |
|---|---|---|
| InputSlots.Acquire | modal/_runtime/container_io_manager.py:226-233 | A slot is granted exactly when `active < value`, and the grant adds one without passing `value`. Otherwise the caller parks as the single waiter. A second waiter raises RuntimeError. No wake-up is ever lost. |
| InputSlots.WakeWaiter | modal/_runtime/container_io_manager.py:235-240 | A parked waiter is woken exactly when a slot is free. The wake takes that slot and clears the waiter; otherwise nothing changes. |
| InputSlots.Release | modal/_runtime/container_io_manager.py:242-244 | Release gives up one slot, or hands it straight to the waiter (then `active` is unchanged). `value` and `closed` are kept and no wake-up is lost. |
| InputSlots.SetValue | modal/_runtime/container_io_manager.py:246-250 | After close nothing changes. Otherwise the new `value` is stored, `active` is never lowered (no preemption), and at most one waiter is woken, within the new limit. |
| InputSlots.Close | modal/_runtime/container_io_manager.py:226-256 | Close raises RuntimeError iff a waiter is parked, the loop runs (`value >= 1`) and a slot is already held: the first acquire that finds no free slot meets the parked waiter. Otherwise it marks the semaphore closed, and once every outstanding holder has released, it holds exactly `value` slots. |
| IoManager.InitConcurrency | modal/_runtime/container_io_manager.py:315-326 | Both limits are at least 1. A PTY shell forces both to 1. A positive max or target is taken as given, and a zero target defaults to the max. |
| IoManager.InitManager | modal/_runtime/container_io_manager.py:312-326 | The input slots start at the target concurrency, with no active input, no waiter, no current inputs and no completed calls. |
| IoManager.GetInputConcurrency | modal/_runtime/container_io_manager.py:1017-1027 | The result is `max(active, value)`. |
| IoManager.SetInputConcurrency | modal/_runtime/container_io_manager.py:1030-1041 | The requested concurrency is clamped to the max concurrency. It is ignored once the slots are closed, and the dynamic-concurrency loop is stopped. |
| IoManager.CreateContext | modal/_runtime/container_io_manager.py:94-128 | Creation succeeds iff there is exactly one input, or at least one when batched; all inputs call the same method; and that method is registered. Ids, retry counts and payloads are kept in order, with no cancel issued. |
| IoManager.SetCancelCallback | modal/_runtime/container_io_manager.py:130-131 | Setting the callback attaches it. Whether a cancel was issued, and how often the callback ran, are unchanged. |
| IoManager.Cancel | modal/_runtime/container_io_manager.py:133-145 | Cancelling runs the callback once and marks the cancel issued. A repeated cancel, or one made before a callback is set, changes nothing. |
| IoManager.CancelAtMostOnce | modal/_runtime/container_io_manager.py:130-145 | In any sequence of callback settings and cancels, the callback runs at most once, and exactly once if a cancel follows a callback. |
| IoManager.Bind | modal/_runtime/container_io_manager.py:164-181 | One call binds iff its arguments cover the parameters exactly: no unknown keyword and no keyword that repeats a positional. Each parameter then gets its positional or keyword value; any other call raises InvalidError. |
| IoManager.BindAll | modal/_runtime/container_io_manager.py:164-184 | A batch binds iff every call binds. Each call's binding is then returned in input order; otherwise InvalidError is raised. |
| IoManager.ArgsAndKwargs | modal/_runtime/container_io_manager.py:147-189 | An unbatched context returns its single call unchanged. A batched one returns, for each parameter in order, the list of that parameter's values across the inputs. It raises InvalidError iff some input does not bind. |
| IoManager.ValidateOutputData | modal/_runtime/container_io_manager.py:198-209 | An unbatched result is wrapped as a one-element list. A batched result must be a list with one entry per input id, or InvalidError is raised. |
| IoManager.FormatBlobData | modal/_runtime/container_io_manager.py:480-485 | The data is kept unchanged, and it is sent inline iff it is at most `MAX_OBJECT_SIZE_BYTES`. |
| IoManager.TrimReprAsWritten | modal/_runtime/container_io_manager.py:811-818 | A repr of at least 2 MiB is cut to its first `2 MiB - 1000` characters, and the reported count is `len - 2 MiB - 1000`, as the source computes it. |
| IoManager.TrimReprAsWrittenMiscounts | modal/_runtime/container_io_manager.py:811-818 | The reported count is always 2000 less than the number of characters actually dropped. For a repr of exactly 2 MiB it reports -1000. |
| IoManager.TrimRepr | modal/_runtime/container_io_manager.py:811-818 | Short reprs are sent whole. A trimmed repr keeps a prefix of `2 MiB - 1000` characters and reports exactly, and positively, the number of characters dropped. |
| IoManager.OutputItems | modal/_runtime/container_io_manager.py:681-693 | The k-th output item carries the k-th input id, retry count and result. Their number is the shortest of the three lists, as Python's `zip` gives. |
| IoManager.OutputRequests | modal/_runtime/container_io_manager.py:695-703 | The requests, concatenated, are the items in order. Each holds between 1 and 20 items, and every request but the last holds exactly 20. |
| IoManager.ExitContext | modal/_runtime/container_io_manager.py:841-848 | The call is always counted. With distinct, current ids it removes exactly those ids, releases exactly one slot and changes nothing else. Otherwise it raises KeyError after the ids before the first missing or repeated one were removed, and no slot is released. |
| IoManager.RegisterThenExit | modal/_runtime/container_io_manager.py:663-664 | Registering fresh ids and then exiting the context restores the current inputs. It counts one call and releases one slot. |
| IoManager.PushOutputs | modal/_runtime/container_io_manager.py:851-875 | An output that fails validation raises InvalidError. Otherwise exactly one Success item per input id is sent, in input order and in requests of at most 20, and then the context is exited without error. |
| IoManager.HandleInputException | modal/_runtime/container_io_manager.py:765-839 | Every input id gets exactly one item, in order: Terminated for a cancellation, Failure otherwise, carrying the trimmed repr and the serialized exception. A trimmed repr keeps the prefix the program sends, and its count is the program's count plus 2000. The items go in requests of at most 20, and then the context is exited. |
| IoManager.InvalidBatchOutputFailsEveryInput | modal/_runtime/container_io_manager.py:198-209 | A batched output of the wrong shape raises InvalidError. The exception handler that follows then fails every input of the batch. |
| IoManager.SenderRequests | modal/_runtime/container_io_manager.py:533-558 | Each request starts where the previous one ended and none is empty. Their messages, concatenated, are the queue's messages up to the sentinel, in order. |
| IoManager.PutDataOut | modal/_runtime/container_io_manager.py:496-525 | The i-th message is sent as chunk `start_index + i`, holding its inline or blob data. |
| IoManager.DataOutIndicesConsecutive | modal/_runtime/container_io_manager.py:527-566 | The data chunks of a generator are numbered 1, 2, 3, ... in queue order. There is one chunk per message before the sentinel. |
| IoManager.CollectInputs | modal/_runtime/container_io_manager.py:625-637 | The response is dropped iff a kill switch occurs before the first final input. Otherwise the inputs up to and including the first final input are kept, in order. |
| IoManager.Fetch | modal/_runtime/container_io_manager.py:601-644 | A rate limit or an empty response yields nothing. More inputs than `max(1, batch_max_size)` fail the assertion. A kill switch ends the stream without yielding. A yielded batch ends the stream iff it ends in a final input or `max_inputs == 1`. |
| IoManager.GenerateInputs | modal/_runtime/container_io_manager.py:589-644 | Every slot acquired is either released or paired with exactly one non-empty yielded batch. A final input can only be the last input of the last batch. With `max_inputs == 1` at most one batch is yielded. |
| IoManager.GenerateInputsFollowsFetch | modal/_runtime/container_io_manager.py:589-644 | The stream takes one response per step, up to and including the first step that ends it. It yields exactly the batches of those steps, in response order. It ends with an error iff its last step raised. |
| IoManager.KillSwitchEndsStream | modal/_runtime/container_io_manager.py:623-644 | Once reached, a response with a kill switch before its first final input is the last one consumed. It yields no batch, and the stream ends without error. |
| Asgi.FlattenHeaders | modal/_serialization.py:137-138 | The flat list is twice as long as the header list and alternates names and values in order. |
| Asgi.UnflattenHeaders | modal/_serialization.py:248-249 | The i-th pair is elements 2i and 2i+1 of the flat list; an odd trailing element is dropped. |
| Asgi.HeadersRoundTrip | modal/_serialization.py:137-138 | Unflattening a flattened header list gives it back, and the flat list has even length. |
| Asgi.FlatRoundTrip | modal/_serialization.py:248-249 | Flattening an unflattened list gives back its even-length prefix. |
| Asgi.Decode | modal/_serialization.py:247-344 | Decoding gives `None` iff the message is empty. Otherwise it gives a dict with a string `"type"` key. |
| Asgi.DefaultCloseCodes | modal/_serialization.py:330-339 | An unset close code decodes to 1005 on websocket disconnect and 1000 on websocket close, as section 7.4.1 of RFC 6455 requires. Set codes pass through. |
| Asgi.DecodeClient | modal/_serialization.py:255-268 | The decoded event has a `client` entry iff the message carries a client host. |
| Asgi.Encode | modal/_serialization.py:136-245 | `None`, a missing type and an unknown type all encode to the empty message, and nothing else does. Lookups are evaluated before type checks. So a missing `method` or `path` (http), `path` (websocket) or `status` (response start) raises KeyError whatever the other fields hold. Any other failure is a TypeError, an IndexError from a client that is too short, or a ValueError from a header item that does not unpack into two or from bytes that are not UTF-8 given to a string field. |
| Asgi.EncodeHttpEvent | modal/_serialization.py:158-188 | The request, response-body, trailers and disconnect events never encode to the empty message and fail only with TypeError or ValueError. |
| Asgi.EncodeWebsocketEvent | modal/_serialization.py:203-245 | The six WebSocket event types encode to a non-empty message and every other type to the empty one. Failures are TypeError or ValueError. |
| Asgi.AsString | modal/_serialization.py:146-151 | A string field leaves `None` unset and keeps a string. Bytes are accepted iff they are well-formed UTF-8, and the field then holds the text they encode; otherwise ValueError. Anything else raises TypeError. |
| Asgi.AsBool | modal/_serialization.py:158-186 | A bool field leaves `None` unset and takes a bool or any integer, set iff it is truthy. Anything else raises TypeError. |
| Asgi.IntMoreBody | modal/_serialization.py:158-164 | An `http.request` with `more_body` an integer encodes with `more_body` set iff the integer is non-zero. |
| Asgi.BytesText | modal/_serialization.py:221-227 | A `websocket.send` whose text is bytes encodes iff the bytes are UTF-8, with the decoded text; otherwise ValueError. |
| Asgi.BytesTextSamples | modal/_serialization.py:221-227 | `b"hi"` as text sends "hi", and `b"\xff"` raises ValueError. |
| Utf8.DecodeChar | modal/_serialization.py:214-227 | A well-formed sequence at the head of the bytes is exactly the encoding of the character it decodes to. |
| Utf8.Decode | modal/_serialization.py:214-227 | Decoded text encodes back to the very bytes it came from. |
| Utf8.DecodeEncodedChar | modal/_serialization.py:214-227 | Any character's encoding, followed by anything, decodes back to that character and its length. |
| Utf8.DecodeEncoded | modal/_serialization.py:214-227 | Decoding the encoding of any text gives that text back. |
| Utf8.DecodeIffEncoding | modal/_serialization.py:214-227 | Bytes decode to a text iff they are that text's encoding, so exactly the encodings are accepted. |
| Utf8.AsciiDecodes | modal/_serialization.py:214-227 | ASCII bytes decode to the characters with the same codes. |
| Utf8.SampleSequences | modal/_serialization.py:214-227 | `C3 A9` decodes to "é". A lone `FF`, the overlong `C0 80`, the surrogate `ED A0 80` and `F4 90 80 80` above U+10FFFF are rejected. |
| Asgi.FlattenOf | modal/_serialization.py:137-138 | `flatten_headers` on any value: a pair list flattens to its bytes, and an empty string, bytes or list to no headers. A non-iterable raises TypeError, and a non-empty string raises ValueError. A list of two-character strings flattens into strings, which the bytes field rejects. |
| Asgi.SubprotocolsOf | modal/_serialization.py:202 | `None` leaves the field empty, a string list is taken as is, a string gives its characters and an empty iterable nothing. Anything else raises TypeError. |
| Asgi.HeadersIterated | modal/_serialization.py:137-153 | In an otherwise valid http scope, the headers `""`, `b""` and `[]` encode as no headers. |
| Asgi.HeadersUnpackFails | modal/_serialization.py:137-153 | In an otherwise valid http scope, the headers `"ab"` and `["abc"]` raise ValueError, and `["ab"]` raises TypeError. |
| Asgi.EncodeDecoded | modal/_serialization.py:136-344 | Encoding a decoded message succeeds and gives its canonical form. That form drops an unpaired header element, gives a client port iff there is a host, and fills in default close codes. |
| Asgi.DecodeCanonical | modal/_serialization.py:247-344 | The canonical form decodes to the same event as the original message. |
| Asgi.EventRoundTrip | modal/_serialization.py:136-344 | For any decoded event, encoding succeeds, and decoding the encoding gives back that event. |
| Asgi.EmptyRoundTrip | modal/_serialization.py:140-141 | `None` encodes to the empty message, and the empty message decodes to `None`. |
| Serialization.ApplyDefaults | modal/_serialization.py:394-411 | Given params stay first and unchanged, and exactly the schema names that need a default are added. It raises InvalidError iff such a name has no default value. The added value is that of the schema's last entry of that name. |
| Serialization.ApplyDefaultsKeepsGiven | modal/_serialization.py:402-411 | Filling in defaults from any accumulated dict keeps that dict as a prefix. |
| Serialization.ApplyDefaultsKeys | modal/_serialization.py:402-411 | The keys after filling in defaults are the given keys plus the defaulted names. |
| Serialization.ApplyDefaultsValues | modal/_serialization.py:402-411 | Each defaulted name holds the default of its last schema entry. |
| Serialization.ValidateParams | modal/_serialization.py:449-467 | Validation passes iff every schema name is present with a value of its type and no name falls outside the schema. The first unsatisfied schema entry decides the error: TypeError if its value has the wrong type, InvalidError if it is missing or its type has no handler. |
| Serialization.ValidateParamsOneString | test/serialization_test.py:89-101 | For one required string `x`: a missing `x` and an extra name raise InvalidError, and a bytes `x` raises TypeError. `{"x": "y"}` passes. |
| Serialization.SerializeProtoParams | modal/_serialization.py:414-426 | Serializing succeeds iff every value is a str, an int within the signed 64-bit range, or bytes. It then gives one typed entry per param, in order and with the same names. A failure is the error of some entry: InvalidError for an unhandled type, ValueError for an int that is too wide. |
| Serialization.DeserializeProtoParams | modal/_serialization.py:429-446 | Deserializing succeeds iff no entry has an unhandled type, else NotImplementedError. The result has distinct keys. |
| Serialization.ValueRoundTrip | modal/_serialization.py:521-560 | Each str, bytes or 64-bit int value converts to its typed proto value and back unchanged. |
| Serialization.ProtoParamsRoundTrip | modal/_serialization.py:421-446 | A dict of str, bytes and 64-bit int params serializes, and deserializes back to the same dict in the same order. |
| Serialization.ValidatedSerializes | modal/_serialization.py:414-467 | Params that pass validation serialize iff their ints fit the 64-bit field. Otherwise serialization raises ValueError. |
| Serialization.DeserializeParams | modal/_serialization.py:470-487 | An unknown format raises ExecutionError. The proto format gives no positional arguments and the decoded dict. The pickle format gives the unpickled call. |
| Serialization.ProtoParamsDelivered | modal/_serialization.py:421-487 | Validated params whose ints fit the field reach the constructor, through the proto format, as exactly the original keyword arguments. |
| Serialization.SerializeDataFormat | modal/_serialization.py:347-357 | Pickle always succeeds. GENERATOR_DONE succeeds iff the object is a done message. ASGI encodes an ASGI event. Any other format raises InvalidError. |
| Serialization.DeserializeDataFormat | modal/_serialization.py:360-368 | ASGI decodes through the ASGI codec, GENERATOR_DONE yields a done message, and any other format raises InvalidError. |
| Serialization.DataFormatRoundTrip | modal/_serialization.py:347-368 | An object serialized in a format it fits deserializes back to itself. |
| Blob.FloorDiv | modal/_utils/blob_utils.py:180 | Python's `//` gives the floor quotient for either sign of the divisor. |
| Blob.CeilDiv | modal/_utils/blob_utils.py:179-180 | `-(a // -b)` is the ceiling of a/b for either sign of b. A zero divisor raises ZeroDivisionError. |
| Blob.PlanParts | modal/_utils/blob_utils.py:169-208 | For a positive part size, the parts number ceil(size/part), start at 0 and are contiguous. Each length is `min(remaining, part)` and all but the last are full. A zero part size raises ZeroDivisionError. |
| Blob.CoversReassemble | modal/_utils/blob_utils.py:169-208 | Reading the planned parts and concatenating them gives back the covered range of the data. |
| Blob.NewSegment | modal/_utils/blob_utils.py:54-72 | A segment is created iff it fits in its source. It then has size `segment_length`, nothing read, and the segment's bytes left to read. |
| Blob.ResetState | modal/_utils/blob_utils.py:74-77 | Resetting zeroes the bytes read, so the whole segment is left again, and changes nothing else. |
| Blob.Write | modal/_utils/blob_utils.py:99-122 | Each chunk written is non-empty and at most `chunk_size`. Together the chunks are exactly the segment's bytes. |
| Blob.GetBlobSize | modal/_utils/blob_utils.py:213-219 | The size is the number of bytes from the current position to the end, and the position is unchanged. |
| Blob.MaskIsLowBits | modal/_utils/blob_utils.py:385 | AND with `2^k - 1` keeps the value modulo `2^k`, so the mode is reduced to its `0o7777` bits. |
| Blob.GetFileUploadSpec | modal/_utils/blob_utils.py:356-386 | The file goes as a blob iff it is at least 4 MiB. Content is present iff it is inline, and is then the whole file. The size and hash are of the whole file, and the mode is masked to `0o7777`. |
| Blob.ModeFromPath | modal/_utils/blob_utils.py:389-394 | A non-zero given mode is used. Otherwise the stat mode is cut to its low 12 bits (`0o7777`). On Windows the group-write and other-write bits (`0o022`) are also cleared, which is the `0o7755` mask. |
| Blob.FromPathModeIsStatBits | modal/_utils/blob_utils.py:389-401 | Without a given mode, the spec's mode is the permission bits of the stat mode. |
| Blob.UseMd5 | modal/_utils/blob_utils.py:418-430 | It is true iff the host, without port, ends in `.amazonaws.com` or `.r2.cloudflarestorage.com`, and false for the three local hosts. Any other host raises. |
| Blob.UseMd5IgnoresPort | modal/_utils/blob_utils.py:424 | Adding a port to the netloc does not change the answer. |
| Blob.CheckDownload | modal/_utils/blob_utils.py:298-308 | A download succeeds iff the status is 200, with the body. Any other status raises ExecutionError. |
| Blob.BlobUpload | modal/_utils/blob_utils.py:222-272 | `already_exists` returns the hash without upload or commit. An unknown mode raises NotImplementedError. Single part sends the rest of the stream. Multipart sends the planned parts, which rebuild the stream. A successful upload commits. |
| Blob.SendParts | modal/_utils/blob_utils.py:197-208 | One payload is sent per part, and with a positive part size they concatenate to the first `blob_size` bytes. |
| Mount.ClientMountName | modal/mount.py:58-65 | It succeeds iff the version starts with a `[\d.\w]` character, naming the mount after the longest such leading run. Otherwise it raises ExecutionError. |
| Mount.ClientMountNameDropsSuffix | modal/mount.py:58-65 | A `+hash` suffix, or any suffix starting with a non-version character, is dropped from the name. |
| Mount.PythonStandaloneMountName | modal/mount.py:68-82 | Without a dash the libc is gnu. An unknown version or a libc other than gnu raises InvalidError. A success names a table entry as `python-build-standalone.{release}.{full}-{libc}`. |
| Mount.StandaloneDefaultsToGnu | modal/mount.py:68-82 | `X.Y-gnu` and `X.Y` name the same mount, or fail alike. |
| Mount.ModuleMountCondition | modal/mount.py:195-219 | A file is kept iff it is not `.pyc` and no path component from the file up to, but not including, the module base is `__pycache__` or starts with ".". |
| Mount.ModuleMountIgnore | modal/mount.py:222-223 | The ignore condition rejects exactly the files the mount condition keeps out. |
| Mount.IsModalPath | modal/mount.py:836-845 | For an absolute path, it holds iff the first three parts are `/`, `root` or `pkg`, and a Modal package or synchronicity. |
| Mount.Extend | modal/mount.py:333-334 | `_extend` returns a mount with the old entries followed by the new one. |
| Mount.AddLocalDir | modal/mount.py:376-411 | It adds one directory entry at the end. The remote path defaults to the local basename, anchored at "/", and the condition becomes its negation as `ignore`. |
| Mount.DefaultRemote | modal/mount.py:391-394 | The remote path is always absolute. It is the given path, or else the local basename, under "/". |
| Mount.AddLocalFile | modal/mount.py:463-480 | It adds one file entry at the end. The remote path defaults to the local basename, anchored at "/". |
| Mount.FileFiles | modal/mount.py:115-121 | A missing file raises FileNotFoundError. Otherwise there is exactly one pair. Its local path is absolute, taken from the working directory when relative, and it goes to the entry's remote path. |
| Mount.DirFiles | modal/mount.py:157-186 | A missing directory raises FileNotFoundError, a non-directory NotADirectoryError. Otherwise the pairs are exactly the listed, non-ignored files: the file under the directory made absolute from the working directory, mapped to `remote_path / rel`. With relative listings, every local path is absolute. |
| Mount.PackageFilesAreClean | modal/mount.py:195-262 | Every file a mounted package yields under its default filter passes the module condition. |
| Mount.SelectFiles | modal/mount.py:99-104 | Selection fails iff an entry fails, with that entry's error. Otherwise it gives the union of all entries' file pairs. |
| Mount.SelectFilesExtend | modal/mount.py:99-104 | Selecting after adding an entry gives the old selection plus that entry's files. |
| Mount.SplitDotsRoundTrip | modal/mount.py:244-253 | Splitting a module name on dots and joining the parts gives it back. |
| Mount.ProxyEntries | modal/mount.py:239-262 | A package becomes a recursive directory entry at `remote_dir/a/b/...`. A module becomes a file entry at `remote_dir/a/.../basename`, one per mount info, in order. |
| Mount.FromLocalPythonPackages | modal/mount.py:696-718 | Giving both `condition` and `ignore` raises InvalidError. Otherwise there is one package entry per module name, in order. |
| Sandbox.ValidateExecArgs | modal/sandbox.py:63-73 | The arguments pass iff all are strings and their total length is at most 2^16; otherwise InvalidError. |
| Sandbox.ExecArgsLimit | modal/sandbox.py:52-73 | Arguments totalling exactly 2^16 are accepted, and one more character is rejected. |
| Sandbox.ValidateWorkdir | modal/sandbox.py:149-150 | A workdir fails iff it is given and does not start with "/", raising InvalidError. |
| Sandbox.Placement | modal/sandbox.py:137-141 | A region together with an explicit placement raises InvalidError. A region alone becomes the placement; otherwise the given placement stands. |
| Sandbox.ChooseNetworkAccess | modal/sandbox.py:191-207 | Blocked plus an allowlist raises InvalidError. Blocked gives BLOCKED, no allowlist gives OPEN, and an allowlist gives ALLOWLIST with its CIDRs. |
| Sandbox.OpenPorts | modal/sandbox.py:182-189 | There is one port spec for every requested port, over all three lists. |
| Sandbox.OpenPortsGroups | modal/sandbox.py:182-189 | The port specs list the encrypted ports, then the unencrypted, then the h2 ones. Each kind's specs are exactly its ports in the given order. |
| Sandbox.NewDefinition | modal/sandbox.py:137-207 | Creation fails with InvalidError iff the placement, a GPU list, the workdir or the network access is rejected. Otherwise the definition carries the chosen placement, network access and ordered ports. |
| Sandbox.ReturnCode | modal/sandbox.py:904-917 | The code is None for no result or UNSPECIFIED, 124 for TIMEOUT, 137 for TERMINATED, and the exit code otherwise. |
| Sandbox.Wait | modal/sandbox.py:559-572 | Waiting stores the first answer with a status. It raises SandboxTimeoutError on TIMEOUT, and SandboxTerminatedError on TERMINATED only when asked to. |
| Sandbox.WaitSetsReturnCode | modal/sandbox.py:559-572 | Once some answer has a status, `returncode` is set afterwards. A raised SandboxTimeoutError goes with 124 and a raised SandboxTerminatedError with 137. |
| Sandbox.ExecDeadline | modal/sandbox.py:734 | The deadline is `now + timeout + 5` for any non-zero timeout, negative ones included, and None for no or a zero timeout. |
| Sandbox.StartExec | modal/sandbox.py:684-743 | Exec fails with InvalidError iff the workdir or the arguments are rejected. Otherwise it sends the request with timeout `timeout or 0`, and the process gets the exec deadline and `by_line` iff `bufsize == 1`. |
| Sandbox.ExecTimesOut | modal/sandbox.py:734 | An exec with a timeout polls as -1 once the deadline has passed. |
| Sandbox.NegativeTimeoutExpires | modal/sandbox.py:728-734 | A timeout of -5 or less is sent as given, and the process polls as -1 at once. |
| ContainerProcess.NewProcess | modal/container_process.py:20-42 | A new process has no return code yet and keeps the given exec deadline. |
| ContainerProcess.ReturnCode | modal/container_process.py:86-92 | Reading the code raises InvalidError iff it is not set; otherwise it gives the stored code. |
| ContainerProcess.Poll | modal/container_process.py:94-114 | A stored code is returned with no change. Past the deadline the code is set to -1. Otherwise a completed answer sets the exit code and an incomplete one sets nothing. |
| ContainerProcess.Wait | modal/container_process.py:116-139 | A stored code is returned. Without a deadline, wait returns iff the process completes, and then returns its exit code. With a deadline and time left, a completion in time gives its exit code, and no time left or a late completion gives -1. A returned code is stored. |
| ContainerProcess.WaitImmediateIsPoll | modal/container_process.py:94-139 | A wait whose completion is already there returns what a poll at the same moment returns: the stored code, -1 past the deadline, else the exit code. |
| ContainerProcess.Step | modal/container_process.py:86-139 | A single call never changes the exec deadline. Reading `returncode` changes nothing. Once a code is stored, no call changes the state. |
| ContainerProcess.CodeIsFinal | modal/container_process.py:99-100 | Once a code is stored, no sequence of polls, waits or reads changes the state. |
| ContainerProcess.WaitThenRead | modal/container_process.py:125-139 | After a wait returns, the code is readable and equals what wait returned, and a later poll agrees. |
| ContainerProcess.WaitedRunHasCode | modal/container_process.py:125-139 | A run containing a wait that returns ends with that wait's code. |
| Traceback.ExtractTraceback | modal/_traceback.py:26-57 | Each leading frame whose filename does not start with "<" is renamed `<task_id>:f`. The frames from the first "<" on are untouched. Every frame's line is cached. |
| Traceback.CacheFramesSpec | modal/_traceback.py:52-55 | After caching, every frame's (filename, lineno) is a key, the earlier keys are kept, and keys stay distinct. |
| Traceback.ExtractIdempotent | modal/_traceback.py:37-48 | Extracting an already extracted traceback renames no frame. |
| Traceback.AppendModalTb | modal/_traceback.py:60-74 | The result drops exactly the leading frames whose filename contains `/pkg/modal/`. |
| Traceback.AppendModalTbIdempotent | modal/_traceback.py:60-74 | Applying it twice is the same as applying it once. |
| Traceback.ReduceToUserCode | modal/_traceback.py:77-105 | Support frames after the root are removed. The result starts at the first user frame (matching filename for a `.py` source, `<module>` otherwise), or at the root when there is none. |
| Traceback.ReduceKeepsOnlyUserFrames | modal/_traceback.py:77-105 | The result is no longer than the input. Only the root can be a support frame. If a user frame exists, the result starts with one. |
| Traceback.ContainsRemoteCall | modal/_traceback.py:108-114 | It holds iff some filename starts with `<ta-` followed by 26 characters from `[0-9A-Z]` and `>:`. |
| Traceback.ExtractedIsRemote | modal/_traceback.py:26-114 | A non-empty local traceback extracted with a well-formed task id contains a remote call. |
| Traceback.SuppressTbFramesAsWritten | modal/_traceback.py:134-170 | Suppression never swallows the exception. It is a no-op for no exception, a base exception or traceback config. Otherwise it keeps the frames after the first `n`, raising AttributeError if there are fewer. The note is added at most once, and only to an exception that already has `__notes__`. |
| Traceback.SuppressAsWrittenLosesNote | modal/_traceback.py:166-169 | An exception without `__notes__` loses frames but gets no note. |
| Traceback.SuppressTbFrames | modal/_traceback.py:134-170 | As above, except that the note is always present afterwards, with `__notes__` created when missing. It is added at most once and after any existing notes. |
| Traceback.SuppressAgreesWithNotes | modal/_traceback.py:166-169 | For an exception that has `__notes__`, the corrected and the as-written suppression agree. |
| Traceback.SuppressCompose | modal/_traceback.py:140-170 | With the corrected suppression, suppressing a frames and then b frames equals suppressing a+b frames, with the note added once. |
| Traceback.SuppressComposeAsWritten | modal/_traceback.py:140-170 | With the program's suppression, nested suppressions drop a+b frames. The note appears once if the exception had `__notes__`, and not at all otherwise. |
| App.NewApp | modal/app.py:201-214 | A new app's registries are well formed: keys are distinct and every function is filed under its own tag. |
| App.CheckSequence | modal/app.py:83-87 | The check passes iff the argument is a list or tuple whose items all have the type; otherwise InvalidError. |
| App.AddFunction | modal/app.py:450-475 | After adding, the tag looks up to the function, and every other tag looks up as before. The very same object again changes nothing. Classes, entrypoints and the name are kept. The web endpoints grow by the tag iff a new web function was added, and a well-formed registry stays well formed. |
| App.AddFunctionOrder | modal/app.py:450-475 | A tag already registered keeps its place in insertion order, and no other entry moves. A new tag is filed last. |
| App.LocalEntrypoint | modal/app.py:596-610 | The tag is the name or the qualname. Missing parentheses, a non-string name or a duplicate tag raise InvalidError; otherwise exactly that tag is appended. |
| App.LocalEntrypointSpec | modal/app.py:601-609 | After registering, entrypoint tags stay distinct, the tag is present, and the registry grew by one. |
| App.FunctionInputSettings | modal/app.py:709-784 | Concurrency comes from a partial function only when it is concurrent, otherwise from `allow_concurrent_inputs` with no target. Batch and web settings come only from a partial function. |
| App.DecorateFunction | modal/app.py:677-838 | It raises InvalidError for an image or truthy positional, TypeError for a class, and InvalidError for a method, a non-global unserialized function or a region clash. Otherwise it registers the function with the derived settings. |
| App.ClsChecks | modal/app.py:941-975 | The checks pass iff the target is a class and: not clustered with several interface methods, at most one batched method, no batched method beside other interface methods, no snap without snapshots, no concurrent method. |
| App.DecorateCls | modal/app.py:901-1024 | Missing parentheses, a region clash or a failed class check raise. Otherwise the class's service function is registered as non-web and the class is filed under its name, with its concurrency, cluster, i6pn and batch settings. |
| App.ClsBatchedAlone | modal/app.py:950-956 | In a class that passes the checks, a batched method is the only batched method and the only interface method. |
| App.Include | modal/app.py:1026-1062 | Including another app keeps this app's name, web endpoints and local entrypoints. |
| App.IncludeSpec | modal/app.py:1050-1062 | After `include`, the other app's functions and classes are registered under their tags. This app's other tags are unchanged, and no endpoint or entrypoint is added. |
| App.DeployCheck | modal/app.py:421-429 | `deploy` raises InvalidError iff neither the call nor the app gives a name. |
| App.DeployCheckOfNewApp | modal/app.py:421-429 | An app created with a name always passes the check. An unnamed app passes iff the call names the deployment. |
| CliApp.GetAppId | modal/cli/app.py:39-43 | An identifier matching `^ap-[a-zA-Z0-9]{22}$` is returned as is; anything else is looked up by name. |
| CliApp.AppIdSkipsLookup | modal/cli/app.py:41-42 | An app id needs no lookup, even with a trailing newline, which `$` allows; any other trailing character forces a lookup. |
| CliApp.RollbackVersion | modal/cli/app.py:149-155 | No version gives -1. A version starting with `v` and digits gives those digits' value, ignoring the rest. Anything else raises UsageError. |
| CliApp.RollbackVersionOfLabel | modal/cli/app.py:152-153 | `v<n>` followed by anything parses to n. |
| CliApp.DecimalValue | modal/cli/app.py:152-153 | Reading the decimal digits of n gives back n. |
| CliApp.CommitCell | modal/cli/app.py:225-230 | An empty hash gives no cell. Otherwise the cell is the first 7 characters of the hash, followed by "*" iff the tree was dirty. |
| CliApp.SortDesc | modal/cli/app.py:246 | The sorted rows are in descending version order and are a permutation of the input. |
| CliApp.History | modal/cli/app.py:200-250 | The Tag column is kept iff some deployment has a tag. Rows are sorted by descending version, one per deployment. The dirty note is printed iff not JSON and some deployment has a dirty commit. |
| CliApp.HistoryRows | modal/cli/app.py:218-246 | The rows are a permutation of the per-deployment rows, each with one cell per column. |
| CliApp.HistoryKeepsDeployments | modal/cli/app.py:218-246 | Every deployment appears as a row with its version and its commit cell. |

## Left out

- Network traffic is not modelled: gRPC stubs, `retry_transient_errors`, HTTP uploads and downloads, heartbeats and the dynamic-concurrency polling loop. Server answers and HTTP statuses are parameters.
- asyncio mechanics are not modelled: futures, tasks, queues and cancellation delivery. `InputSlots` is a sequential state machine with a "waiter present" flag. `Close` lets the outstanding holders release one by one.
- Pickle, cloudpickle and the protobuf byte encodings are abstract. Messages are datatypes, and a pickled payload is a constructor around the object.
- The numeric values of protobuf enums (data formats, generic statuses, parameter types, tunnel types) are left out. They are symbolic constructors because `api_pb2` is not part of this model.
- Floating-point logic is left out: average call time, `get_max_inputs_to_fetch`, timestamps and their localisation. Clock readings are `real` parameters.
- Hashing (`get_sha256_hex`, MD5 progress) is left out. The hash is a given function of the content.
- Filesystem access is left out: `stat`, `resolve`, `expanduser`, symlinks, directory walks and `os.scandir`. Existence, directory flags and listings are given. Paths are lists of parts, with no string parsing or normalisation.
- `FilePatternMatcher` and its directory pruning are left out. An ignore rule is any predicate on relative paths.
- `get_module_mount_info`, `FunctionInfo`, `is_global_object` and `is_method_fn` are left out. Their answers are given with the decorated object.
- Regular expressions are written as ASCII character predicates. Python's Unicode `\w` and `\d` would also accept non-ASCII letters and digits in `client_mount_name` and `rollback`.
- `urlparse` is left out. `UseMd5` takes the netloc directly.
- Rich tables, styles, logging, warnings and deprecation messages are left out. Only the rows, columns and the dirty note of `history` are modelled.
- The `_Function.from_local`/`_Cls.from_local` constructors and hydration inside a running container are left out. A registered function or class is an opaque object with an identity.
- Blob.BlobUpload: all part uploads of one call see the same HTTP status, because retries and per-request results are not modelled.
- Mount.IsModalPath: for a relative path the model only states that a match needs at least three parts beginning with "/". Python's parts of a relative path never start with "/", so the result is false there as well.
- Sandbox.NewDefinition: resources, volumes, secrets and mounts are not modelled. Only the checks and the placement, network and port fields are.
- Sandbox.Wait: the ten-second server timeout per request is left out. The answers are the statuses the server would give, in order.
- IoManager.HandleInputException: the reported count of a trimmed repr is the corrected one (`IoManager.TrimRepr`), not the program's `len - MAX_OBJECT_SIZE_BYTES - 1000`. The contract states that it is the program's count plus 2000, and that the kept text is the program's.
- Sandbox.StartExec: the protobuf widths of `timeout_secs` and `PortSpec.port` are not modelled, because `api_pb2` is not part of this model. A value outside the field's range is sent as given, where protobuf would raise ValueError.
- IoManager.PushOutputs: the manager left behind when exiting the context raises KeyError is not returned. IoManager.ExitContext models that state; the same holds for IoManager.HandleInputException.
- Asgi.Encode: the protobuf widths of the integer fields (`status`, close `code`, `client_port`) are not modelled, because `api_pb2` is not part of this model. An integer outside the field's range is encoded, where protobuf would raise ValueError. Class parameters do model the signed 64-bit `int_value` field.
- App.DeployCheck: which name the deployment gets, when both the call and the app give one, is decided in `_deploy_app` (modal/runner.py). That file is not part of this model, so only the guard is stated.
- Asgi.AsBool: an integer outside the C `long` range given to a bool field raises OverflowError in protobuf. The model sets the field from any integer, because the field width belongs to `api_pb2`, which is not part of this model.
- Mount.FileFiles: `resolve()` is modelled as taking a relative path from the working directory, as is `absolute()` in Mount.DirFiles. Symlinks and `..` are not resolved.

## Findings

| source | as written | input that shows it | evidently intended | confidence | as-written member | corrected member |
|---|---|---|---|---|---|---|
| modal/_runtime/container_io_manager.py:811-818 | The message reports `len(repr) - MAX_OBJECT_SIZE_BYTES - 1000` trimmed bytes. The code actually keeps `MAX_OBJECT_SIZE_BYTES - 1000` characters, so it drops `len(repr) - MAX_OBJECT_SIZE_BYTES + 1000`. The report is 2000 too low. | A repr of exactly 2097152 characters: 1000 are cut, but the message says "Trimmed -1000 bytes". | Report the number of characters actually removed, `len(repr) - (MAX_OBJECT_SIZE_BYTES - 1000)`. | not executed | IoManager.TrimReprAsWritten (exhibited by IoManager.TrimReprAsWrittenMiscounts) | IoManager.TrimRepr |
| modal/_traceback.py:166-169 | `notes = getattr(exc, "__notes__", [])` and then `notes.append(...)`. For an exception without a `__notes__` attribute, the note goes into a fresh list that is never attached. | `raise ValueError()` inside `suppress_tb_frames(1)` over a two-frame traceback: the frame is dropped, but no note is attached. | Attach the note as `BaseException.add_note` would, creating `__notes__` when missing. | not executed | Traceback.SuppressTbFramesAsWritten (exhibited by Traceback.SuppressAsWrittenLosesNote) | Traceback.SuppressTbFrames |
