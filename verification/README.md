# Voice wrapper: a Dafny model of its request handlers

`scripts/voice-wrapper.py` is a small web server. A phone uses it to type or
dictate into a tmux session, press special keys, manage tmux windows and
upload photos. This project models the logic inside its handlers and proves
properties of it:

- **Upload naming** (`filenames.dfy`). The client's file name becomes a
  stored name in three steps: take the basename as `PurePosixPath(...).name`
  does, replace every character outside `[\w.-]` with `_`, and fall back to
  `photo.jpg`. Python's Unicode-aware `\w` is the abstract type `WordClass`:
  any predicate that agrees with `[A-Za-z0-9_]` on ASCII characters.
  Collisions are then resolved by trying `stem-2.suffix`, `stem-3.suffix`, …
  until a name is free.
- **Upload storage** (`uploads.dfy`). The size-limited chunk loop, and the
  upload directory as a class whose `files` field maps stored names to bytes.
- **Window listing** (`windows.dfy`). The parser for `tmux list-windows -F
  ...` output, with a formatter as its inverse.
- **tmux relay** (`relay.dfy`). The key allow-list, the tmux targets built
  from JSON values, and a class whose `log` field records the argument vector
  of every tmux call each handler makes.
- **Support** (`text.dfy`, `decimal.dfy`, `options.dfy`). Python's
  `str.split`, `str.join` and `str.strip`. Decimal rendering of the collision
  counter and decimal parsing of window indices. An `Option` type.

A method that runs a loop in the source is proved against a specification
function. `ResolveDestination` is proved against `FreeName`, `ReadChunks`
against `Consumed`/`Concat` and `ParseWindowList` against `ParseLines`. The
lemmas beside each function prove what the handler promises.

Two details of the code are easy to misread:

- `\w` is Unicode-aware, so non-ASCII letters and digits are kept. Stored
  names are not limited to `[A-Za-z0-9_.-]`.
- `/tmux/exec` tests the window's truthiness, so a window of `0` also
  targets the bare session (its active window), just like an absent one.

## Model

| member | source | states |
|---|---|---|
| `Decimal.Render` | scripts/voice-wrapper.py:622 | the counter in a retry name is non-empty, all digits, with no leading zero |
| `Decimal.Parse` | scripts/voice-wrapper.py:551 | `int(idx)` succeeds exactly on non-empty strings of decimal digits |
| `Decimal.ParseRender` | scripts/voice-wrapper.py:551 | parsing a rendered number gives back the number |
| `Decimal.RenderInjective` | scripts/voice-wrapper.py:622 | distinct counters render as distinct strings |
| `Text.Split` | scripts/voice-wrapper.py:543 | `split(sep)` gives at least one piece, and no piece holds the separator |
| `Text.JoinSplit` | scripts/voice-wrapper.py:543 | joining the pieces of a split gives back the original string |
| `Text.SplitJoin` | scripts/voice-wrapper.py:546 | splitting a join of separator-free pieces gives back the pieces |
| `Text.SplitAround` | scripts/voice-wrapper.py:612 | splitting at one separator splits each side independently |
| `Text.Join` | scripts/voice-wrapper.py:539 | tmux's output for the `-F` format is a join of the lines it prints, the inverse of the split at line 543: a join starts with its first piece and contains the separator once there are two pieces |
| `Text.StripStart` | scripts/voice-wrapper.py:543 | the leading whitespace and nothing else is removed |
| `Text.StripEnd` | scripts/voice-wrapper.py:543 | the trailing whitespace and nothing else is removed |
| `Text.Strip` | scripts/voice-wrapper.py:543 | `strip()` returns the slice `s[i..j]` with only whitespace before `i` and after `j`, and the slice neither starts nor ends with whitespace |
| `Text.JoinEdges` | scripts/voice-wrapper.py:539 | tmux's output for the `-F` format at line 539 is a join of the lines it prints: a join of non-empty end pieces starts with the first piece's first character and ends with the last piece's last character |
| `Text.StripTrailingNewline` | scripts/voice-wrapper.py:543 | `strip()` removes only the final newline from tool output that has no other edge whitespace |
| `Filenames.RawName` | scripts/voice-wrapper.py:611 | the raw name is never empty: a missing or empty client name is replaced by `photo.jpg`, and any other name is kept |
| `Filenames.Basename` | scripts/voice-wrapper.py:612 | `Path(...).name` holds no `/` and is never `.` |
| `Filenames.BasenameTrailingSlash` | scripts/voice-wrapper.py:612 | a trailing `/` or `/.` does not change the basename |
| `Filenames.BasenameEmptyCases` | scripts/voice-wrapper.py:612 | the empty path and `.` have the empty name |
| `Filenames.BasenameOfName` | scripts/voice-wrapper.py:612 | a name without `/` that is neither empty nor `.` is its own basename |
| `Filenames.BasenameAfterSlash` | scripts/voice-wrapper.py:612 | everything before the last `/` is dropped |
| `Filenames.Replace` | scripts/voice-wrapper.py:613 | the replacement keeps the length, keeps every word character, `.` and `-`, turns every other character into `_`, and leaves a name made only of such characters unchanged |
| `Filenames.Sanitize` | scripts/voice-wrapper.py:611-615 | the stored name is non-empty and never starts with `.`. Every character is a word character, `.` or `-`. The fallback fires exactly when the basename is empty or starts with `.`. Otherwise the name has the basename's length, keeps each allowed character and turns every other one into `_` |
| `Filenames.SanitizedHasNoSlashOrSpace` | scripts/voice-wrapper.py:613 | a stored name contains no `/` and no space |
| `Filenames.SanitizeIdempotent` | scripts/voice-wrapper.py:611-615 | sanitising an already-sanitised name, `photo.jpg` included, changes nothing |
| `Filenames.MissingNameIsDefault` | scripts/voice-wrapper.py:611 | a missing or empty client name is stored as `photo.jpg` |
| `Filenames.SanitizeWithoutFallback` | scripts/voice-wrapper.py:613-615 | when the basename is usable, the stored name is the basename with characters replaced |
| `Filenames.DirectoriesStripped` | scripts/voice-wrapper.py:612 | `dirs/name` is stored exactly as `name` would be, `..` components included |
| `Filenames.DotDotPathExample` | scripts/voice-wrapper.py:611-615 | `../../etc/passwd` is stored as `passwd` |
| `Filenames.HiddenNameExample` | scripts/voice-wrapper.py:614-615 | `.hidden` is stored as `photo.jpg` |
| `Filenames.NamelessPathExample` | scripts/voice-wrapper.py:612-615 | `/` and `.` are stored as `photo.jpg` |
| `Filenames.SpecialCharactersExample` | scripts/voice-wrapper.py:613 | `a b#c.png` is stored as `a_b_c.png` |
| `Filenames.LastIndexOf` | scripts/voice-wrapper.py:621 | `rfind` returns the last index holding the character, or -1 |
| `Filenames.Stem` | scripts/voice-wrapper.py:620 | the stem is a prefix of the name, empty only for the empty name |
| `Filenames.Suffix` | scripts/voice-wrapper.py:620-621 | stem followed by suffix is the name. The suffix is empty or a dot with at least one non-dot character after it, and then the stem is non-empty |
| `Filenames.SuffixRule` | scripts/voice-wrapper.py:621 | the suffix is non-empty exactly when the last dot lies strictly inside the name (neither first nor last) |
| `Filenames.StemSuffixExamples` | scripts/voice-wrapper.py:620-621 | `a.jpg` splits as `a` + `.jpg`, `archive.tar.gz` has suffix `.gz`, and `notes.` and `README` have no suffix |
| `Filenames.Candidate` | scripts/voice-wrapper.py:616-622 | the name tried at attempt k is the sanitised name itself exactly when k is 1 |
| `Filenames.FreeIndex` | scripts/voice-wrapper.py:616-623 | the loop stops at the first attempt exactly when the sanitised name is free |
| `Filenames.FreeName` | scripts/voice-wrapper.py:616-623 | the stored name is the sanitised name exactly when that name is free |
| `Filenames.CandidateExamples` | scripts/voice-wrapper.py:622 | the second, third and twelfth names tried for `a.jpg` are `a-2.jpg`, `a-3.jpg` and `a-12.jpg` |
| `Filenames.CandidateInjective` | scripts/voice-wrapper.py:618-623 | the loop never tries the same name twice |
| `Filenames.FreeIndexSpec` | scripts/voice-wrapper.py:618-623 | the chosen name is free. Every earlier name tried was taken, so the number chosen is the smallest free one. A free sanitised name is kept. The counter stays at most the number of existing names plus 2 |
| `Filenames.RepeatedUploads` | scripts/voice-wrapper.py:618-623 | after `name`, `-2`, …, `-n` exist, the next upload of that name is stored as number n + 1 |
| `Filenames.ResolveDestination` | scripts/voice-wrapper.py:616-623 | the `while dest.exists()` loop terminates and returns `FreeName`, a name not in the directory |
| `Uploads.Consumed` | scripts/voice-wrapper.py:627 | the loop reads chunks in order up to, and not past, the first empty read |
| `Uploads.TotalLength` | scripts/voice-wrapper.py:628 | no single chunk is longer than the running total |
| `Uploads.Concat` | scripts/voice-wrapper.py:631-632 | the bytes written are empty exactly when every chunk read is empty |
| `Uploads.ConcatLength` | scripts/voice-wrapper.py:628-632 | the number of bytes written equals the running total |
| `Uploads.TotalLengthPrefix` | scripts/voice-wrapper.py:628-630 | the running total never decreases, so exceeding the limit mid-stream means the whole stream exceeds it |
| `Uploads.ConcatAppend` | scripts/voice-wrapper.py:631-632 | each chunk is written right after the chunks read before it |
| `Uploads.ReadChunks` | scripts/voice-wrapper.py:625-632 | the result is an error exactly when the chunks' total length exceeds 20·1024·1024. Otherwise it is their in-order concatenation, at most that size |
| `Uploads.UploadDir.constructor` | scripts/voice-wrapper.py:602 | the directory starts with the given entries |
| `Uploads.UploadDir.Upload` | scripts/voice-wrapper.py:607-633 | too large: `{"error": ...}` and the directory is unchanged. Otherwise exactly one new entry is written, under `FreeName` of the sanitised name, which was absent before, holding the concatenated chunks. The reply carries that name and its path |
| `Uploads.PlainJpgName` | scripts/voice-wrapper.py:611-615 | `a.jpg` is stored as `a.jpg` when free |
| `Uploads.SecondJpgName` | scripts/voice-wrapper.py:618-623 | with `a.jpg` present, the next `a.jpg` is stored as `a-2.jpg` |
| `Uploads.ThirdJpgName` | scripts/voice-wrapper.py:618-623 | with `a.jpg` and `a-2.jpg` present, the next is stored as `a-3.jpg` |
| `Windows.Lines` | scripts/voice-wrapper.py:543 | the stripped output splits into at least one line |
| `Windows.WindowOf` | scripts/voice-wrapper.py:549-552 | a listed line yields a window exactly when its first field is a non-empty string of digits |
| `Windows.ParseLines` | scripts/voice-wrapper.py:542-554 | a successful parse never yields more windows than there are lines |
| `Windows.ParseLinesSpec` | scripts/voice-wrapper.py:542-554 | parsing succeeds exactly when every listed line has a numeric index. It then yields one window per non-empty line with at least 4 fields, in line order, so never more windows than lines |
| `Windows.ActiveFlag` | scripts/voice-wrapper.py:549-552 | `active` holds exactly when the third field is `"1"`. Name and command are fields 2 and 4, and the index is field 1 parsed |
| `Windows.ParseFailureSticks` | scripts/voice-wrapper.py:551 | a non-numeric index fails the whole listing, whatever follows |
| `Windows.EmptyOutput` | scripts/voice-wrapper.py:543-554 | empty tool output lists no windows |
| `Windows.ParseWindowList` | scripts/voice-wrapper.py:542-554 | the loop computes `ParseLines` of the stripped, split output |
| `Windows.ParseFormatLine` | scripts/voice-wrapper.py:539-552 | a line in the requested `-F` format parses back to its window |
| `Windows.FormatLines` | scripts/voice-wrapper.py:539 | tmux prints one line per window |
| `Windows.ListRoundTrip` | scripts/voice-wrapper.py:537-554 | listing the windows tmux prints gives back exactly those windows, in order |
| `Relay.Truthy` | scripts/voice-wrapper.py:572 | exactly `None`, `False`, `0` and `""` are falsy |
| `Relay.Format` | scripts/voice-wrapper.py:562 | a string is used as is, a natural number reads back as itself, and a truthy value never formats as empty |
| `Relay.WindowTarget` | scripts/voice-wrapper.py:562 | the target is the session, then `:`, then the formatted window |
| `Relay.ExecTarget` | scripts/voice-wrapper.py:594 | the target always starts with the session and is the bare session exactly for a falsy window |
| `Relay.DangerousKeysRejected` | scripts/voice-wrapper.py:503-507 | the tmux prefix `C-b`, plain text and the empty name are not allowed, and no allowed key holds a space, newline or `;` |
| `Relay.ExecTargetChoice` | scripts/voice-wrapper.py:592-594 | a falsy window (absent `""`, `0`, `null`, `false`) targets the bare session, and a truthy one targets `session:window` |
| `Relay.WindowTargetSplits` | scripts/voice-wrapper.py:562 | `session:idx` splits at `:` back into the session and the index |
| `Relay.TmuxRelay.constructor` | scripts/voice-wrapper.py:32-40 | the relay starts with the resolved tmux binary, the session and an empty log |
| `Relay.TmuxRelay.SendText` | scripts/voice-wrapper.py:489-500 | appends exactly `send-keys -t session -l text` then `send-keys -t session Enter`, and replies sent |
| `Relay.TmuxRelay.SendKey` | scripts/voice-wrapper.py:510-519 | a key outside `ALLOWED_KEYS` is rejected with `key not allowed` and appends nothing. An allowed key appends exactly `send-keys -t session key` and replies sent |
| `Relay.TmuxRelay.CopyPane` | scripts/voice-wrapper.py:522-529 | appends `capture-pane -t session -p -S -` and returns the captured text unchanged |
| `Relay.TmuxRelay.ListWindows` | scripts/voice-wrapper.py:534-554 | appends `list-windows` with the 4-field format and returns the parse of tmux's output |
| `Relay.TmuxRelay.SelectWindow` | scripts/voice-wrapper.py:557-565 | appends `select-window -t session:idx` and echoes the index |
| `Relay.TmuxRelay.NewWindow` | scripts/voice-wrapper.py:568-575 | appends `new-window -t session`, followed by `-n shell cmd` exactly when the command is non-empty |
| `Relay.TmuxRelay.CloseWindow` | scripts/voice-wrapper.py:578-586 | appends `kill-window -t session:idx` and echoes the index |
| `Relay.TmuxRelay.Exec` | scripts/voice-wrapper.py:589-597 | appends the literal command then `Enter`, both to `ExecTarget` |

## Left out

- The HTML page, its styling and client-side script, including image
  scaling, timers and fetches (lines 64-486). They are presentation only.
- `Relay.TmuxRelay.SendText`, `Relay.TmuxRelay.SendKey`,
  `Relay.TmuxRelay.CopyPane`, `Relay.TmuxRelay.ListWindows`,
  `Relay.TmuxRelay.SelectWindow`, `Relay.TmuxRelay.NewWindow`,
  `Relay.TmuxRelay.CloseWindow`, `Relay.TmuxRelay.Exec`: each call is only
  recorded in the log, and captured output is a parameter. No
  `subprocess.run` call passes `check=True`, so a non-zero exit is ignored
  and the handler still replies as modelled. Every exception
  `subprocess.run` raises is left out:
  - a call that runs past its 5-second timeout;
  - a missing binary;
  - a NUL character in an argument, which comes from the client's text,
    command or a string index or window;
  - an argument longer than the operating system allows.

  In each of these cases the request fails, the handler's later calls are
  not made, and no reply is sent. The model instead always appends every
  command and replies.
- `get_tailscale_ip` and `_find_binary`. They wrap `tailscale`,
  `shutil.which` and `platform.system`; the tmux path and session name are
  constructor parameters.
- FastAPI and uvicorn routing, and JSON/pydantic decoding. A missing
  `index` or `command` key, which raises `KeyError`, is not modelled.
- JSON floats, lists and objects as window indices. `Json` covers null,
  booleans, integers and strings. A non-string truthy `command` for
  `new_window` is also not modelled, because `subprocess` would reject it.
- `Decimal.Parse` accepts ASCII digits only, so Python `int()` corner cases
  are not modelled: whitespace, signs, underscores and non-ASCII digits. It
  also accepts digit strings longer than CPython's str-to-int limit (4300
  digits by default), on which `int()` raises. tmux never prints such an
  index.
- `Filenames.Sanitize` works on Unicode scalar values. Lone surrogates in a
  Python `str` are not modelled.
- `Filenames.Suffix` follows `PurePath.suffix` as it is up to Python 3.13:
  a trailing lone dot is not a suffix. Later Python versions that count it
  as one are not modelled.
- `Filenames.Basename` models POSIX paths only. A Windows host, where `\`
  also separates components, is not modelled.
- The filesystem. The upload directory is a map from name to bytes, so:
  - `mkdir` is not modelled;
  - directory entries that are not files are not modelled;
  - what happens on write errors is not modelled;
  - names are compared exactly. On a case-insensitive volume, such as the
    macOS default, `dest.exists()` finds `A.jpg` when asked for `a.jpg`,
    so the loop moves on to `a-2.jpg` where the model keeps `a.jpg`;
  - names are not truncated, so a name longer than the volume's limit
    (255 bytes on common volumes) makes `exists()` or `write_bytes` fail.
- Concurrent uploads. The check-then-act race between two uploads with the
  same name is out of scope; uploads run one at a time.
- `Uploads.ReadChunks` takes the stream as a sequence of read results. It
  does not model that each read returns at most 1 MiB (`1024 * 1024`); that
  size plays no part in the limit check.
- `Windows.ListRoundTrip` requires names and commands without `|`, `\n`
  or `\r`, and a last command that does not end in whitespace. Otherwise
  the newline translation, `split` and `strip` change what tmux printed.
- Text-mode decoding of tool output (`text=True`). `Relay.TmuxRelay.CopyPane`
  and `Relay.TmuxRelay.ListWindows` take `result.stdout` after decoding as
  their parameter. The decoding itself is not modelled: the bytes-to-`str`
  step, with the `UnicodeDecodeError` it raises on invalid input, and the
  universal-newline translation of `\r\n` and a lone `\r` into `\n`.
