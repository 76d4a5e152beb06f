# Instrumentation data path, modelled in Dafny

This project models the core of a boat-instrumentation program. The program reads four analog channels from an ADS1115 converter over I2C. It corrects each count with a per-channel linear calibration. It writes the readings, together with optional GPS data, as one InfluxDB line-protocol record. It posts that record over HTTP, and when the post fails it keeps the record in an offline queue file and re-sends it later. Around this sit:

- an interactive calibration helper that fits a line through operator-entered points by least squares;
- an application manager that creates and initialises the parts in order and releases them on failure;
- the libcurl response-buffer callback;
- a Python script that reads the program's console output back into measurements.

Modules, one per source file:

| module | file | what it models |
|---|---|---|
| `Text` | (shared) | Rendering and scanning of decimal integers (`%d`, `%ld`), and splitting and joining on a separator. |
| `Measurement` | `original-version/Measurement.c` | Setting the default measurement and a correction, converting, and reading the value. |
| `ADS1115` | `original-version/ADS1115.c` | The gain-name table, the channel-to-multiplexer map, the configuration bytes, and one single-shot read with its four error codes. The bus's byte counts and bytes are inputs. |
| `LineProtocol` | `original-version/LineProtocol.c` | `snprintf`-truncating builders over a fixed buffer, composing the 1024-byte record, and `sendDataToInfluxDB`. Whether the post succeeds is an input. |
| `OfflineQueue` | `original-version/OfflineQueue.c` | `offline_queue_add`, and one `offline_queue_process` pass over a file-system map. Reads follow `fgets` with a 2048-byte buffer. The outcome of each send is an input. |
| `CalibrationHelper` | `original-version/CalibrationHelper.c` | The static-variable state machine of `calibrateSensor`, `least_squares` over real numbers, and the `CAL<n>` command parse of `calibrationListener`. |
| `ApplicationManager` | `original-version/ApplicationManager.c` | Argument validation and path copying in `app_manager_create`, the step order, error codes, cleanup and channel activation of `app_manager_init`, `app_manager_signal_shutdown` and `app_manager_error_string`. |
| `Curl` | `DataSender/curl.cpp` | `WriteMemoryCallback` and the accumulation of a body over a transfer. Whether `realloc` succeeds is an input. |
| `Mavlinker` | `original-version/mavlinker.py` | `str.split()`, `int()`, `extract_value`, `extract_unit`, `extract_values` and the read loop over the console lines. `float()` is an input. |

Inputs that stand for the outside world:

- the bus (`ADS1115.Bus`);
- the HTTP outcome (`delivered`, and `OfflineQueue.Transport`, which gives the outcome of the k-th send of a pass);
- allocation success (`allocates`, `reallocates`);
- the init steps' results (`ApplicationManager.Steps`);
- the operator's console answers (`CalibrationHelper.Inputs`);
- the `%.6f` rendering of a double (`render`);
- Python's `float()` (`parseFloat`).

## Model

| member | source | states |
|---|---|---|
| Measurement.SetDefaultMeasurement | original-version/Measurement.c:8-13 | The count and the cached value become 0 and the id is kept. The installed correction maps every count to itself. |
| Measurement.SetMeasurementCorrection | original-version/Measurement.c:15-18 | The count, the cache and the id are untouched. The installed correction maps a count c to c·angular + linear. |
| Measurement.ConvertMeasurement | original-version/Measurement.c:20-22 | Only the cached value changes. It becomes the physical value of the stored count under the stored correction. |
| Measurement.GetMeasurementValue | original-version/Measurement.c:24-27 | The value returned is the stored count under the stored correction, count·angular + linear. The measurement left behind differs from the input only in caching that value. |
| Measurement.DefaultReadsRaw | original-version/Measurement.c:8-27 | After the default setting, any stored count reads back as itself. |
| Measurement.GetMeasurementValueIdempotent | original-version/Measurement.c:24-27 | Reading twice gives the same value and state as reading once. |
| Measurement.CorrectionThenRead | original-version/Measurement.c:15-27 | After a correction is set, the next read returns count·angular + linear. |
| ADS1115.GainToInt | original-version/ADS1115.c:36-44 | A listed gain name gives its own table position. The result is -1 exactly when the name is not one of the six. |
| ADS1115.GainNamesRoundTrip | original-version/ADS1115.c:15-20 | Each of the six names maps back to its code 0..5, so the names are distinct. |
| ADS1115.ChannelToMux | original-version/ADS1115.c:47-55 | Channels 0-3 select single-ended inputs AIN0-AIN3 (codes 4-7). Every other channel selects AIN0. |
| ADS1115.ConfigHigh | original-version/ADS1115.c:88 | The start bit and the single-shot bit are set. The multiplexer can be read back from bits 6..4 and the gain from bits 3..1. |
| ADS1115.ConfigLow | original-version/ADS1115.c:89 | The byte is 0x83: rate code 128 SPS in bits 7..5, comparator disabled in bits 1..0. |
| ADS1115.ConfigWrite | original-version/ADS1115.c:86-89 | Three bytes: the config-register pointer, a high byte carrying the channel's multiplexer and the gain, then 0x83. |
| ADS1115.Decode16 | original-version/ADS1115.c:115 | The result lies in [-32768, 32767]. It is the big-endian pair read as unsigned, minus 65536 exactly when the high bit is set. |
| ADS1115.DecodeEncode | original-version/ADS1115.c:115 | Decoding the device's bytes for any 16-bit value gives that value back. |
| ADS1115.EncodeDecode | original-version/ADS1115.c:115 | Every byte pair is the encoding of the value it decodes to. |
| ADS1115.Read | original-version/ADS1115.c:76-117 | The code is -1 exactly for an unknown gain, and then nothing is written. It is -2 when the 3-byte config write comes up short, -3 when the pointer write does, and -4 when the 2-byte read does. On any error the result is untouched. Code 0 stores the decoded bytes. Code -2 sends only the config bytes. Codes -3, -4 and 0 send the config bytes, then the conversion-register pointer. |
| ADS1115.ReadReturnsDeviceValue | original-version/ADS1115.c:76-117 | A read with a valid gain over a bus that accepts every transfer returns the value the device encoded. |
| LineProtocol.Append | original-version/LineProtocol.c:152 | `snprintf` at the end of a buffer. It returns the untruncated length. The old text stays a prefix and what follows is a prefix of the argument. All of it is appended exactly when it fits with its NUL; otherwise the buffer fills to size-1. |
| LineProtocol.AppendCap | original-version/LineProtocol.c:152 | Appending to a text truncated to a buffer gives the truncation of the whole concatenation. Truncation loses nothing twice. |
| LineProtocol.SetMeasurement | original-version/LineProtocol.c:147-149 | Returns the name's length. The buffer holds a prefix of the name: the whole name exactly when it is shorter than the buffer, otherwise size-1 characters. A zero-size buffer is untouched. |
| LineProtocol.AddTag | original-version/LineProtocol.c:151-153 | Returns the length of `,key=value`. The old text stays a prefix. The tag is appended whole exactly when it fits. |
| LineProtocol.AddField | original-version/LineProtocol.c:155-162 | The separator is a space when the text has none yet, and a comma afterwards. The old text stays a prefix, and what is added is a prefix of the field's text. The field is appended whole exactly when it fits, and the length of the untruncated text is returned. |
| LineProtocol.AddTimestamp | original-version/LineProtocol.c:168-170 | Appends a space and the decimal timestamp, whole exactly when it fits. Returns its length. |
| LineProtocol.RefreshActive | original-version/LineProtocol.c:118-122 | Each of the first four channels whose id is not "NC" is converted. Every other measurement is left as it was. |
| LineProtocol.ComposeRecord | original-version/LineProtocol.c:113-137 | The record always fits the 1024-byte buffer with its NUL. |
| LineProtocol.ComposeIsCappedRecord | original-version/LineProtocol.c:113-137 | The composed record is the unbounded record (name, tag, fields, timestamp) truncated to 1023 characters, however the truncation falls. |
| LineProtocol.UnboundedAfterSpace | original-version/LineProtocol.c:155-161 | Once the text contains a space, every later field is introduced by a comma. |
| LineProtocol.SeparatorLaw | original-version/LineProtocol.c:155-170 | A record is header, space, first field, comma-separated further fields, space, timestamp. |
| LineProtocol.ParseRecordText | original-version/LineProtocol.c:147-170 | Splitting a built record on its separators recovers the name, the tag, every field and the timestamp, provided keys and values contain no separators. |
| LineProtocol.ParseUnboundedRecord | original-version/LineProtocol.c:115-137 | The unbounded record parses as measurement "measurements", tag source=instrumentacao, the fields in order, and the timestamp. |
| LineProtocol.ComposedRecordDecodes | original-version/LineProtocol.c:113-137 | A composed record that fits the buffer decodes to exactly its name, tag, fields and timestamp. |
| LineProtocol.OnlyFirstFourChannels | original-version/LineProtocol.c:118 | Channels past the fourth do not influence the record. |
| LineProtocol.ChannelFieldKeys | original-version/LineProtocol.c:118-122 | The channel fields are keyed by the active ids in channel order. No field is keyed "NC". |
| LineProtocol.InactiveChannelIgnored | original-version/LineProtocol.c:119-121 | Changing the measurement of an "NC" channel does not change the channel fields. |
| LineProtocol.RecordFieldKeys | original-version/LineProtocol.c:118-135 | The field keys are the active ids in channel order, then the GPS keys that are present, in the order latitude, longitude, altitude, speed. |
| LineProtocol.GpsFieldKeys | original-version/LineProtocol.c:124-135 | A GPS key appears exactly when its value is present (not NaN). |
| LineProtocol.SendDataToInfluxDB | original-version/LineProtocol.c:113-142 | The line posted is the composed record. A delivered post leaves the files untouched. A failed post appends the line, up to any NUL byte, and a newline to the offline store when it can be opened, and changes nothing when it cannot. No other file changes. The measurements handed back are the input with each active channel's value converted and cached. |
| LineProtocol.QueuedRecordIsResentWhole | original-version/LineProtocol.c:139-141 | After a failed post, the next pass over a well-formed store reads back the old lines followed by this record up to any NUL byte. That is exactly the record when it holds no NUL. |
| OfflineQueue.UpToNul | original-version/OfflineQueue.c:18 | `%s` prints the string's prefix before its first NUL byte. A string without NUL is printed whole. |
| OfflineQueue.Add | original-version/OfflineQueue.c:15-24 | When the store can be opened for appending, its content gains the line up to any NUL byte and a newline, and the store is created if absent. Otherwise nothing changes. No other file is touched. |
| OfflineQueue.AddExtends | original-version/OfflineQueue.c:15-24 | Adding a well-formed line to a store holding lines ls makes it hold ls followed by that line. |
| OfflineQueue.ReadLen | original-version/OfflineQueue.c:42 | One `fgets` read takes at most 2047 characters. It stops after the first newline, at the buffer limit, or at end of file. |
| OfflineQueue.ReadsCoverFile | original-version/OfflineQueue.c:42 | The successive reads cover the file exactly, with nothing skipped and nothing read twice. |
| OfflineQueue.CutAtNewline | original-version/OfflineQueue.c:44 | The line kept is the read's prefix before its first newline or NUL byte, where `strcspn` stops. It holds neither. |
| OfflineQueue.CutOfTerminated | original-version/OfflineQueue.c:44 | A line with no newline and no NUL byte, read with its newline, is cut back to exactly that line. |
| OfflineQueue.NulEndsStoredLine | original-version/OfflineQueue.c:42-75 | In the store `ab\0cd\n` the line sent is `ab`. A pass where every send fails rewrites the store as `ab\n`, so the bytes after the NUL are lost. |
| OfflineQueue.StoredLinesOfJoin | original-version/OfflineQueue.c:42-44 | A store written as well-formed lines, each with a newline, reads back as exactly those lines. A well-formed line has no newline, no NUL byte, and fewer than 2047 characters. |
| OfflineQueue.NoLineLost | original-version/OfflineQueue.c:66-77 | Within a pass, every line is either delivered or retained, never both. Together they are a permutation of the lines read. |
| OfflineQueue.SendLoopSpec | original-version/OfflineQueue.c:42-78 | The loop writes the failed lines to the temp file in order and delivers the others in order. `all_sent` holds exactly when no line failed. |
| OfflineQueue.Process | original-version/OfflineQueue.c:26-91 | With no store, or a temp file that cannot be created, nothing changes. Otherwise the lines whose send succeeded are delivered in order. If none failed, the store is removed and an empty temp file is left. If some failed, the store holds exactly those lines and the temp file is gone. Other files are untouched. |
| OfflineQueue.PassOverLines | original-version/OfflineQueue.c:26-91 | A pass over a store of well-formed lines delivers the succeeding ones and leaves a well-formed store of the failing ones. |
| OfflineQueue.FailingPassKeepsStore | original-version/OfflineQueue.c:83-90 | When every send fails, nothing is delivered and the store's content is unchanged. |
| OfflineQueue.AddThenFailingPasses | original-version/OfflineQueue.c:15-91 | A queued line survives two failing passes, after the earlier lines. |
| OfflineQueue.DrainThenNoOp | original-version/OfflineQueue.c:26-30 | A pass where every send succeeds delivers the whole store and removes it. The next pass is then a no-op. |
| OfflineQueue.PartialFailureKeepsOrder | original-version/OfflineQueue.c:66-88 | With two queued lines whose first send fails and second succeeds, the second is delivered and only the first remains. |
| OfflineQueue.ThreeFailuresDrainInOnePass | original-version/OfflineQueue.c:15-85 | Three records queued by failed posts are stored as three lines, and one fully successful pass delivers all three in order. |
| OfflineQueue.StopBetweenRemoveAndRenameLosesLines | original-version/OfflineQueue.c:86-88 | If the program stops between `remove` and `rename`, the retained lines sit only in the temp file. The next pass's fresh temp file overwrites them. |
| CalibrationHelper.LeastSquares | original-version/CalibrationHelper.c:90-102 | The closed-form fit is undefined exactly when its denominator n·Σx² − (Σx)² is zero. |
| CalibrationHelper.FitPoints | original-version/CalibrationHelper.c:90-102 | The summing loop over the first n points gives the closed-form least-squares fit of those points. |
| CalibrationHelper.FitDefinedIffDistinct | original-version/CalibrationHelper.c:100 | A line is fitted exactly when at least two x values differ. |
| CalibrationHelper.NormalEquations | original-version/CalibrationHelper.c:90-102 | When two x values differ, a line is fitted, and its slope and offset solve both normal equations of least squares. |
| CalibrationHelper.FitThroughCentroid | original-version/CalibrationHelper.c:101 | When two x values differ, a line is fitted, and it passes through the mean point. |
| CalibrationHelper.FitMinimisesSquaredError | original-version/CalibrationHelper.c:90-102 | When two x values differ, a line is fitted, and no line has a smaller sum of squared residuals. |
| CalibrationHelper.ColinearPointsFitExactly | original-version/CalibrationHelper.c:90-102 | Points on a line, with two distinct x values, are fitted by exactly that line. |
| CalibrationHelper.TakePoint | original-version/CalibrationHelper.c:33-72 | The sample and the entered reading go to slot `counter`, and no other slot changes. If the session is not complete, the call returns 0 and advances the counter. Otherwise it fits the stored pairs. It returns 1 and resets only if the result file opens. A counter past the 1024 slots is a write out of bounds. |
| CalibrationHelper.StepAsWritten | original-version/CalibrationHelper.c:8-73 | Fewer than 3 points refuses the session with no effect. An out-of-bounds write happens exactly when the counter reaches 1024. |
| CalibrationHelper.Step | original-version/CalibrationHelper.c:15-26 | The corrected step never writes out of bounds. It refuses sessions asking for fewer than 3 or more than 1024 points, and otherwise behaves as written. |
| CalibrationHelper.SessionCollects | original-version/CalibrationHelper.c:33-46 | The first n−1 calls of a session each return 0, write nothing, and store their pair at the next slot. |
| CalibrationHelper.SessionFits | original-version/CalibrationHelper.c:48-72 | The last call of a session fits exactly the n pairs entered, returns 1 and leaves the helper idle. |
| CalibrationHelper.CompleteSession | original-version/CalibrationHelper.c:8-73 | Over a whole session of n calls, n−1 calls return 0, the last returns 1, the state is idle again, and the fit written is the least-squares line of the n pairs entered. |
| CalibrationHelper.OversizedSessionOverflows | original-version/CalibrationHelper.c:11-33 | A session asking for more than 1024 points stores 1024 samples. The next call then writes past the arrays. |
| CalibrationHelper.ParseCalCommand | original-version/CalibrationHelper.c:83 | A token yields a channel exactly when it starts with "CAL" followed by a decimal integer, and the channel is that integer. |
| CalibrationHelper.CalCommandSelects | original-version/CalibrationHelper.c:83 | "CAL" followed by the decimal digits of k, and then anything but a digit, selects k. |
| CalibrationHelper.LastCalCommandWins | original-version/CalibrationHelper.c:81-86 | Tokens after the last parsing token do not change the selected channel. |
| Text.ScanIntRoundTrip | original-version/CalibrationHelper.c:83 | `%d` reads back the decimal rendering of any integer, when it is followed by a non-digit or by the end of input. |
| ApplicationManager.StrNEqualIsEquality | original-version/ApplicationManager.c:128 | `strncmp` with a bound beyond the literal's length compares the whole C string with it. |
| ApplicationManager.StorePathKeeps | original-version/ApplicationManager.c:80-84 | A path shorter than its buffer is stored with the same C-string content. |
| ApplicationManager.Create | original-version/ApplicationManager.c:53-87 | A manager is made exactly when both paths are given, each is shorter than its limit (64 and 256), and allocation succeeds. It is running, holds the address, and both path buffers are NUL-terminated. |
| ApplicationManager.CreateKeepsPaths | original-version/ApplicationManager.c:76-84 | A created manager holds exactly the paths it was given. |
| ApplicationManager.IsActiveIff | original-version/ApplicationManager.c:126-133 | A channel is active exactly when its id is neither empty nor "NC". |
| ApplicationManager.Init | original-version/ApplicationManager.c:89-165 | A null manager gives the null-pointer code with no effect. Success comes exactly when every step succeeds. Each failing step yields its own code, and the first failing step decides. On failure nothing stays held. On success hardware, mutex, sender and publisher are held. Channel activity is computed exactly when the sender step has been passed. |
| ApplicationManager.InitReleasesWhatItAcquired | original-version/ApplicationManager.c:95-155 | On failure, exactly the resources acquired so far are released, in reverse order. On success, all are held. |
| ApplicationManager.SignalShutdown | original-version/ApplicationManager.c:199-204 | A null manager stays null. Otherwise only the running flag changes, and it becomes false. |
| ApplicationManager.SignalShutdownIdempotent | original-version/ApplicationManager.c:199-204 | Signalling twice is the same as signalling once. |
| ApplicationManager.ErrorString | original-version/ApplicationManager.c:206-231 | The message is "Unknown error" exactly for codes outside the enumeration. |
| ApplicationManager.ErrorStringIdentifiesCode | original-version/ApplicationManager.c:206-231 | Each enumerated code can be recovered from its message. Unknown codes map to no code. |
| ApplicationManager.ErrorStringInjective | original-version/ApplicationManager.c:206-231 | Distinct codes have distinct messages. |
| Curl.Fresh | DataSender/curl.cpp:41-42 | The initial one-byte block holds an empty body. |
| Curl.WriteMemoryCallback | DataSender/curl.cpp:16-32 | When `realloc` succeeds, it returns size·nmemb and the body grows by exactly the delivered bytes, followed by a NUL in a block of size+1. When `realloc` fails, it returns 0 and the buffer is unchanged. |
| Curl.TransferAccumulates | DataSender/curl.cpp:16-32 | A transfer completes exactly when no allocation fails on a non-empty chunk. The body is then the old body followed by every accepted chunk, in order. |
| Curl.TransferCollectsBody | DataSender/curl.cpp:40-53 | When every allocation succeeds, a transfer into the fresh buffer collects the whole response body. |
| Mavlinker.Split | original-version/mavlinker.py:26 | `str.split()` yields only non-empty tokens free of white space. |
| Mavlinker.SplitSpaced | original-version/mavlinker.py:26 | Splitting words joined by runs of white space recovers exactly the words. |
| Mavlinker.PyInt | original-version/mavlinker.py:30 | `int()` succeeds exactly on an optional sign followed by digits, where underscores are allowed only between digits, and at most 4300 digits. A longer string raises `ValueError`. |
| Mavlinker.PyIntReadsDecimal | original-version/mavlinker.py:30 | `int()` reads back the decimal rendering of any integer of at most 4300 digits. It refuses a longer one. |
| Mavlinker.PyIntOfChar | original-version/mavlinker.py:29 | `int()` of one character succeeds exactly on a digit and gives its value. |
| Mavlinker.ValueTokenSplits | original-version/mavlinker.py:19-23 | On a value token printed as a number's text followed by a one-character unit, `extract_unit` returns that unit and `extract_value` parses exactly the text before it. |
| Mavlinker.ExtractValues | original-version/mavlinker.py:25-34 | IndexError occurs exactly when there are four tokens and the first is shorter than 4. A measurement comes out exactly when there are four tokens, the 4th character of the first is a digit, the second is an integer `int()` accepts (at most 4300 digits), and the third minus its unit is a float. The fields are read from those tokens. |
| Mavlinker.ExtractValuesReadsConsoleLine | original-version/mavlinker.py:25-34 | A console line printed as in the sample at lines 5-8 is read back as exactly the measurement printed, when the reading has at most 4300 digits. With more digits the line gives `ValueError`. |
| Mavlinker.ReadAsWritten | original-version/mavlinker.py:47-52 | The script prints the parsed measurements up to the first line raising IndexError. It reaches the end exactly when no line raises. |
| Mavlinker.ShortChannelTokenRaises | original-version/mavlinker.py:29 | The line "AD 24 0.86V x" raises IndexError. |
| Mavlinker.IndexErrorStopsReading | original-version/mavlinker.py:47-52 | A line raising IndexError ends the script before a following good line is printed. |
| Mavlinker.ReadLoop | original-version/mavlinker.py:47-52 | The corrected loop prints exactly the lines that parse, in order, skipping every malformed line. |
| Mavlinker.ReadLoopsAgree | original-version/mavlinker.py:47-52 | When no line raises IndexError, the loop as written and the corrected loop print the same measurements, and the script as written reaches the end. |

## Left out

- Network I/O (`CurlInfluxDB`, `curlURL`, the HTTP headers and URLs in LineProtocol.c and OfflineQueue.c) is left out. Each send is reduced to its success, which is an input.
- The I2C system calls (`ads1115_init`, `ads1115_close`, `open`, `ioctl`, `usleep`) are left out. `ads1115_read` sees the bus only through the byte counts and the bytes it returns.
- OfflineQueue.Process: `remove` and `rename` (OfflineQueue.c:84, 87-88) are modelled as always succeeding, because the code ignores their results. If `rename` fails after `remove`, the retained lines sit only in the temp file, and the next pass's `fopen(..., "w")` truncates it. This is the same loss StopBetweenRemoveAndRenameLosesLines shows for a stop between the two calls. If `remove` fails after every line was sent, the next pass re-sends the whole store. The model has no unreadable files: a store that exists but cannot be opened for reading (line 27) is not modelled, though the code skips it like a missing one.
- Characters and bytes: in the C modules (LineProtocol, OfflineQueue, ApplicationManager, Measurement) one Dafny `char` stands for one C byte. The limits (the 1024-byte record buffer, the 2047-byte read, the 64- and 256-byte path buffers, `strlen`) count such chars. The C counts an id holding non-ASCII text by its UTF-8 bytes, so it reaches these limits sooner than the model says. In Mavlinker a `char` is a Python code point, as `str` has it.
- `offline_queue_init` is left out: it only creates the `logs` directory.
- ApplicationManager.Init: the success path's `interval_timer_init`, `csv_logger_init` and `battery_monitor_init` (ApplicationManager.c:157-161) are not modelled. The CSV logger may open a file, which `app_manager_destroy` closes, so the held resources named on success (hardware, mutex, sender, publisher) leave it out.
- `app_manager_run` and `app_manager_destroy`, the threads, signal handling, `main.c` and the channel configuration loader are not part of this model. Init treats each of its steps as an input.
- Console output (`printf`, `perror`, Python `print`) and the Python subprocess are left out.
- CalibrationHelper.TakePoint: only calls of `calibrateSensor` that return are modelled. The "press 1" loop (CalibrationHelper.c:39-43) never ends at end of input or on a token that is not an integer. That includes the token a failed `%lf` at line 36 leaves unread. In those cases the call never returns. So the case where `realReading` is `None` on a point before the last mostly stands, in the program, for a call that hangs.
- The contents of the calibration result file (CalibrationHelper.c:53-67) are left out; only whether it opens matters.
- `setMeasurementId` and `printMeasurement` are left out: one stores a pointer into a fixed array, and the other only prints.
- LineProtocol.ComposeRecord: the `%.6f` rendering of a double is an input `render`, and NaN is modelled as an absent GPS value.
- CalibrationHelper.LeastSquares: doubles are modelled as reals. A zero denominator gives `Singular` instead of inf or NaN, and rounding is not modelled.
- Measurement.GetMeasurementValue: doubles are modelled as reals, so products are exact.
- ADS1115.Decode16: the `int16_t` cast of a value above 32767 is implementation-defined in C. It is modelled as the two's-complement wrap-around that every supported compiler performs.
- CalibrationHelper.ParseCalCommand: `scanf("%s")` into the 5-byte `command` buffer overflows for tokens of five or more characters. This is not modelled; the token is taken whole. Overflow of `%d` is not modelled either.
- Curl.WriteMemoryCallback: overflow of `size * nmemb` and of `mem->size + realsize + 1` in `size_t` is not modelled.
- Mavlinker.PyInt: only ASCII digits are modelled. Python's `int()` also accepts other Unicode decimal digits, and it accepts surrounding white space, which cannot occur in a `split()` token. The digit limit is fixed at CPython's default of 4300. A limit changed through `sys.set_int_max_str_digits` or `PYTHONINTMAXSTRDIGITS`, and older interpreters that have no limit, are not modelled.
- Mavlinker.ExtractValue: Python's `float()` is an input `parseFloat`. `float()` gives nan, inf or -inf for tokens such as `nan`, `inf` and `1e999`, and no `real` holds those values. So a `parseFloat` must map such a token to a stand-in real or to `None`. The model then stores a made-up value or skips the line, where the script prints a Measurement holding nan or inf.

## Findings

| source | as written | input that shows it | evidently intended | confidence | as-written member | corrected member |
|---|---|---|---|---|---|---|
| original-version/CalibrationHelper.c:21-33 | `number_points` is checked only against the lower bound 3. Slot `counter` of the 1024-element static arrays is written before any bound. | Answer 1025 to "number of points". The 1025th call writes `adc_readings[1024]`, past the end. | Refuse more than 1024 points, as fewer than 3 are refused. | not executed | CalibrationHelper.OversizedSessionOverflows | CalibrationHelper.Step |
| original-version/mavlinker.py:29-51 | `int(parts[0][3])` raises IndexError when the first token is shorter than four characters. The loop catches only ValueError, so the script ends. | The console line `AD 24 0.86V x`. | Skip the malformed line like any other that does not parse. | not executed | Mavlinker.IndexErrorStopsReading | Mavlinker.ReadLoop |
