# later: output relay and exit classification

`later` runs a command, echoes its standard output to the console while "attached",
and after a delay switches to "detached": output read from then on is kept in a buffer
instead, and printed after the command exits, together with its exit code. With the
`--all` option every chunk is kept in the buffer, detached or not.

This project models the sequential core of that program, in Dafny:

- `routing.dfy`, module `Routing`: the per-chunk routing rule of the relay loop
  (`Command.readOutput`) and `Run`, a specification of the whole loop over a schedule
  of reads. Each `Read` carries the bytes one `Read` call delivered, the error it
  returned (nil, `io.EOF` or another error), and whether the detach timer fired before
  the `detached` flag was sampled for that chunk. The timer thread is thus replaced by
  an input: the moment it fires is part of the schedule.
- `exitstatus.dfy`, module `ExitStatus`: what `Command.wait` returns and which exit
  code `Command.WaitForExitCode` reports for the stored wait error.
- `command.dfy`, module `Later`: class `Command` with the fields of the Go struct that
  the core updates (`detached`, `output`, `exitError`, `exited`, `status`, plus the
  immutable `reportAll` that replaces the global option). Its methods are proved
  against the functions above: `RouteChunk` is one iteration over the reused 1 MiB
  read buffer (an `array`), `ReadOutput` is the loop, `Detach` is the timer's flag
  flip, `Wait` and `WaitForExitCode` are the exit watcher.

The lemmas in `Routing` state what the loop guarantees: nothing is dropped, the console
gets exactly the chunks read before the first detach and the buffer exactly those from
it on (or everything with `--all`), the flag only ever goes from attached to detached,
a chunk returned together with EOF or an error is still routed, and no routed chunk is
longer than the buffer.

Two behaviours of the code are easy to miss, and the model follows the code in both:

- A failed wait is not fatal. `wait` returns the error, but it runs as `go c.wait()`
  (main.go:69), so the return value is dropped. `Command.Wait` returns it and nothing
  acts on it. The exit code reported is 0.
- A read that reports more bytes than the buffer holds makes `buf[:n]` panic before
  the chunk is routed (main.go:89). `io.Reader` forbids such a read, but the code does
  not check for it. The model treats it as an abort with nothing routed
  (`Aborted(ChunkTooLarge)`).

## Model

| member | source | states |
|---|---|---|
| `Routing.Route` | main.go:91-107 | one chunk's routing: it is echoed exactly when the flag is clear and kept exactly when the flag is set or `--all` is given; so it is never dropped, and without `--all` it goes to exactly one of console and buffer |
| `Routing.Step` | main.go:85-115 | what the loop does after a read: it goes on exactly when the chunk fits and the error is nil, returns exactly on EOF, aborts on another error, and panics exactly when the read is larger than the buffer |
| `Routing.Iterate` | main.go:87-115 | one pass: one read taken, the sampled flag is the old flag or the timer firing, the step result is `Step`, an oversized read routes nothing and any other chunk goes where `Route` sends it |
| `Routing.Run` | main.go:84-117 | the loop over a schedule of reads: it takes no more reads than scheduled, stops short of the schedule only on a stopping read, takes at least that read when it stops, and never clears the flag |
| `Routing.FirstStop` | main.go:109-115 | the index of the read on which the loop returns (EOF) or panics: every earlier read neither ended the stream nor failed |
| `Routing.Routed` | main.go:85-115 | the number of chunks the loop routes: every routed chunk fits the 1 MiB buffer, all but the last came with a nil error, and the loop stopped right after the last one or on an oversized read |
| `Routing.FirstDetach` | main.go:79-81 | the first read whose chunk is sampled as detached: no earlier read saw the timer fire |
| `Routing.DetachedFromFirstDetach` | main.go:91-93 | the flag is monotone: read i is sampled detached if and only if i is at or after the first detach |
| `Routing.SampledFlag` | main.go:79-93 | for every read the loop takes, the flag sampled for read i is set if and only if it was set before the loop or the timer fired before read i or an earlier one |
| `Routing.RunStops` | main.go:109-115 | once a read has ended the loop, later reads change nothing: no output, no state |
| `Routing.RunOutcome` | main.go:86-116 | the loop takes reads up to and including the first that stops it; the outcome is EOF, a read failure or an oversized read, by that read; its chunk is routed except when oversized |
| `Routing.RunDetached` | main.go:79-93 | after the loop, the flag is set if and only if it was set before or the timer fired before one of the reads taken |
| `Routing.RunConsole` | main.go:102-107 | the console receives exactly the routed chunks read before the first detach, in order, with or without `--all` |
| `Routing.RunRetainsAll` | main.go:95-100 | with `--all` the buffer equals the in-order concatenation of all routed chunks, whenever the detach happens |
| `Routing.RunRetainsSuffix` | main.go:95-100 | without `--all` the buffer equals exactly the routed chunks from the first detach on, in order |
| `Routing.NothingDropped` | main.go:95-107 | without `--all`, console followed by buffer is the whole routed output byte for byte |
| `Routing.LateOutputRetained` | main.go:84-117 | "A", then the detach, then "B" with EOF: the console shows "A" and the buffer holds "B" |
| `Routing.AttachedRunEchoed` | main.go:84-117 | without `--all`, when every routed chunk is read before the first detach, the console gets all of them in order and the buffer stays empty |
| `Routing.EarlyExitEchoed` | main.go:84-117 | the schedule "hello\n" with EOF and no detach: the console shows "hello\n" and the buffer stays empty |
| `ExitStatus.WaitReturn` | main.go:120-131 | `wait` returns nil exactly when the error is nil or an exit error; any other error is returned unchanged |
| `ExitStatus.ExitCode` | main.go:137-148 | the exit code is the wait status's exit status when the error is an exit error carrying one, and 0 otherwise (nil, no wait status, failed wait) |
| `Later.Command.constructor` | main.go:50-52 | a new run record: attached, empty buffer, nothing echoed, not exited |
| `Later.Command.Detach` | main.go:79-81 | the flag is set and stays set |
| `Later.Command.RouteChunk` | main.go:87-115 | one iteration: the chunk is appended to the buffer exactly when it fits and the sampled flag or `--all` holds; it is echoed exactly when it fits and the flag is clear; the rest of the buffer is unchanged; the step result is `Step` |
| `Later.Command.Relay` | main.go:86-107 | one pass with the timer possibly firing first: buffer, console, flag and step result are those of `Iterate` |
| `Later.Command.ReadOutput` | main.go:84-117 | the loop: the buffer grows by `Run`'s retained bytes, the console by its echoed bytes, and the flag, outcome and number of reads taken are `Run`'s |
| `Later.Command.Wait` | main.go:120-131 | the wait error is stored, completion is signalled, and the result is `WaitReturn` of the error |
| `Later.Command.WaitForExitCode` | main.go:134-149 | once completed, returns `ExitCode` of the stored error and caches the wait status when there is one |

## Left out

- Goroutines, the mutex around `detached`, the `exited` channel and the timer
  (main.go:61-62, 69, 74-75, 79-81, 91-93, 135): the schedule of reads fixes when the
  timer fires relative to each flag sample; `exited` is a boolean, and the blocking
  receive in `WaitForExitCode` becomes its precondition `exited`.
- `Run`'s pipe creation and process start and their errors (main.go:54-70), and
  `Cmd.Wait` (main.go:122): these are operating-system calls. The wait outcome is a
  parameter of `Wait`.
- `syscall.WaitStatus` internals (main.go:142-144): an exit error carries the integer
  its `ExitStatus()` would return, or no wait status at all. `Later.Command.WaitForExitCode`
  caches that integer in `status`, not the raw wait status word.
- The console write failing (main.go:103-106) and `bytes.Buffer.Write` failing
  (main.go:96-99). The console is a sink that accepts every write. The buffer only
  fails when memory runs out.
- Standard error pass-through (main.go:54), option parsing and usage text
  (main.go:17-30), the timestamped messages, the runtime and `main` (main.go:77,
  151-180): these are I/O, clock and library calls.
- A finite schedule that ends with no EOF and no error
  leaves the loop `Pending`. The real loop would go on reading.
