# Task service store, pagination, bearer gate and retry — a Dafny model

This project models the core of a small gRPC task-tracking service written in
Go. The service keeps its tasks in process memory and pages through them with
a decimal offset cursor. A bearer-token check sits in front of every unary
call. Callers retry one injected transient failure. The model covers:

- **the task store**, `TaskServiceServer` (`task_store.dfy`). It is a class
  with the service's three fields: a map from id to task, an
  insertion-ordered sequence of the same tasks, and the one-shot
  `failNext` switch. Its methods are NewTaskServiceServer (the
  constructor), FailNextUnavailable, CreateTask, GetTask, CreateTaskWithId
  and ListTasks. Each method states its full reply, including every error
  code, and its new state. All of them keep the invariant `Valid()`:
  - the map and the sequence hold the same tasks;
  - ids are distinct;
  - every stored task has the shape a create gives it: trimmed, non-empty
    id and title, trimmed description, status Pending, created equal to
    updated.
- **the cursor pagination** of ListTasks (`pagination.dfy`). It is pure and
  generic over the element type. This part covers page-size normalisation,
  token decoding, the returned sub-range and the next token. Around it sit
  the token-rule lemmas, and a client walk that follows the tokens to the
  end. The walk is proved to visit every item exactly once, in order, as the
  full-size chunks of the sequence.
- **the string conversions** the service relies on (`text.dfy`).
  `strings.TrimSpace` uses Go's `unicode.IsSpace` set. `strconv.Atoi` is the
  64-bit version: an optional sign, decimal digits only, and the range of a
  64-bit `int`. `strconv.Itoa` is modelled on non-negative values. The key
  lemma is the round trip `Atoi(Itoa(n)) == n`.
- **the authorization interceptor** (`auth.dfy`). It is a pure function
  from the call's `authorization` metadata values to either a rejection code
  or the handler's own reply.
- **the caller-side retry loop** `CallWithRetry` (`retry.dfy`). It is an
  imperative `while` loop proved against a recursive reference definition
  and against a plain statement of the retry policy. The policy statement is
  proved to determine the answer.

`options.dfy` and `codes.dfy` hold the `Option` type, the gRPC status codes
and the `Result` type.

The model is sequential. The Go service guards the map and the sequence with
one reader/writer lock. Two reads there happen outside that lock:
`failNext` at the start of CreateTask, and the sequence length in ListTasks'
past-the-end check: ListTasks reads `len(taskSlice)` at main.go:156 before
it takes the read lock at main.go:163, and the model follows the code.
Running calls one at a time, it cannot observe the difference.

## Model

| member | source | states |
|---|---|---|
| Text.TrimSpace | cmd/server/main.go:77 | The result is never longer than the input. It is empty exactly when the input is all white space in Go's sense. Otherwise neither end is white space. |
| Text.TrimSpacePadded | cmd/server/main.go:77 | Any white-space padding around a trimmed core is removed to give exactly that core. |
| Text.TrimSpaceFixed | cmd/server/main.go:99 | Trimming leaves a string unchanged if and only if neither end is white space. |
| Text.TrimSpaceIdempotent | cmd/server/main.go:77 | Trimming twice is the same as trimming once. |
| Text.TrimSpaceTonight | cmd/server/main.go:86 | The padded description "  tonight  " is stored as "tonight". |
| Text.Atoi | cmd/server/main.go:152 | A value comes back only for an optional sign followed by decimal digits, and only inside the 64-bit `int` range. Text.AtoiAccepts gives the converse and the value, and Text.AtoiRejectsOverflow the rejection of every out-of-range digit run. |
| Text.Itoa | cmd/server/main.go:174 | The token is a run of decimal digits whose value is the offset, with no leading zero except "0" itself. |
| Text.AtoiItoa | cmd/server/main.go:152-174 | Every offset written as a next token reads back as that same offset. |
| Text.AtoiExamples | cmd/server/main.go:152 | "-0", "+3", "-1" and "42" read as 0, 3, -1 and 42. "abc", "", "-" and "1_000" are syntax errors. |
| Text.AtoiAccepts | cmd/server/main.go:152 | Every optional sign followed by digits, leading zeros allowed, whose signed value lies in the 64-bit `int` range is accepted with exactly that value. With Text.Atoi and Text.AtoiRejectsOverflow this is the whole behaviour of the base-10 conversion. |
| Text.AtoiRejectsOverflow | cmd/server/main.go:152-153 | Every optional sign followed by digits whose signed value lies outside the 64-bit `int` range is rejected, so the token is InvalidArgument. |
| Text.AtoiRange | cmd/server/main.go:152-153 | The largest 64-bit `int` is accepted and the next value up is rejected. |
| Pagination.EffectivePageSize | cmd/server/main.go:141-146 | A size of 0 or less becomes 10, a size above 100 becomes 100, and anything else is kept. The result is always between 1 and 100. |
| Pagination.PageAt | cmd/server/main.go:165-175 | The page from an offset holds the next page-size items in order, fewer at the end. Its token is "" exactly when the page reaches the end, and otherwise is the decimal spelling of the offset just after the page. |
| Pagination.Paginate | cmd/server/main.go:140-176 | Every error is InvalidArgument, and no page holds more items than the effective page size. |
| Pagination.PaginateCases | cmd/server/main.go:147-172 | A token that is neither empty nor a non-negative decimal `int` is InvalidArgument. An offset at or past the end gives the empty page. Any other token gives the page at its offset. The empty token on an empty store falls in the second case. |
| Pagination.PaginateSpec | cmd/server/main.go:147-176 | A token is InvalidArgument exactly when it is neither empty nor a non-negative decimal `int`. An offset at or past the end gives the empty last page. Otherwise the page is the next at most page-size items from the offset, in order. Its token is "" exactly when the page reaches the end. Otherwise it is the decimal spelling of the offset after the page, and reads back as that offset. |
| Pagination.EndToken | cmd/server/main.go:165-175 | The page holds the smaller of the page size and the rest. Its token is "" exactly at the end. Otherwise it is the decimal spelling of the end offset, and reads back as that offset. |
| Pagination.PastTheEnd | cmd/server/main.go:156-161 | A token for any offset at or past the end gives an empty page with an empty token, not an error. |
| Pagination.SameOffsetSamePage | cmd/server/main.go:152-170 | Two non-empty tokens that read as the same number get the same answer. |
| Pagination.SignedTokens | cmd/server/main.go:152-153 | "+3" is answered like "3", and "-0" like "0". |
| Pagination.RejectedTokens | cmd/server/main.go:152-155 | "abc", "-1" and a number one past the 64-bit range are each InvalidArgument. |
| Pagination.EmptyStore | cmd/server/main.go:149-172 | With no token, an empty store answers one empty page with an empty token. |
| Pagination.Walk | cmd/server/taskservice_bufconn_test.go:172-226 | A client that feeds each next token back until it is "" collects at least one page, and no more pages than the calls it is allowed. |
| Pagination.FlattenChunks | cmd/server/main.go:165-170 | Concatenating the consecutive pages of a sequence gives back the sequence. |
| Pagination.ChunkSizes | cmd/server/main.go:165-170 | Every page but the last is full. The last one is non-empty unless the sequence is empty. |
| Pagination.ListCallServesPages | cmd/server/main.go:140-176 | ListTasks answers every token that stands for an offset up to the end with the page there. That page's token is "" exactly at the end, and otherwise stands for the end offset. |
| Pagination.WalkFrom | cmd/server/main.go:147-175 | Following the tokens from any token that stands for an offset collects exactly the pages of the rest of the sequence. |
| Pagination.WalkVisitsEveryItemOnce | cmd/server/main.go:140-178 | Starting from the empty token and always passing the next token back, the pages come out as the consecutive full-size chunks of the sequence. Their concatenation is the sequence itself: every item once, in insertion order. |
| Pagination.FiveItemsInPagesOfTwo | cmd/server/taskservice_bufconn_test.go:157-226 | Five items in pages of two come out as items 1-2 with token "2", items 3-4 with token "4", and item 5 with token "". |
| TaskStore.UuidIsTrimmed | cmd/server/main.go:81-84 | A canonical uuid is non-empty and has no white space at either end, so trimming leaves it unchanged. |
| TaskStore.ConsistentInsert | cmd/server/main.go:91-94 | Adding a well-formed task under an unused id to both the map and the end of the sequence keeps the two views consistent. |
| TaskStore.NewTask | cmd/server/main.go:83-90 | The task a create builds has the stored-task shape. |
| TaskStore.TaskServiceServer.constructor | cmd/server/main.go:63-68 | The store starts empty, with the failure switch off, and is consistent. |
| TaskStore.TaskServiceServer.FailNextUnavailable | cmd/server/main.go:56-61 | The switch is armed, nothing else changes, and the store stays consistent. |
| TaskStore.TaskServiceServer.Insert | cmd/server/main.go:91-94 | The task is added under its id and at the end of the sequence, and consistency is kept. |
| TaskStore.TaskServiceServer.CreateTask | cmd/server/main.go:70-96 | An armed switch gives Unavailable, disarms the switch and stores nothing. Otherwise a blank title is InvalidArgument and stores nothing. Otherwise the new Pending task carries the fresh uuid, the trimmed title and description, and equal timestamps. It is added to the map and appended to the sequence. |
| TaskStore.TaskServiceServer.GetTask | cmd/server/main.go:98-110 | A blank id is InvalidArgument. An unknown trimmed id is NotFound. Otherwise the reply is the task stored under the trimmed id. |
| TaskStore.TaskServiceServer.CreateTaskWithId | cmd/server/main.go:112-138 | The checks come in order: blank id, then blank title (both InvalidArgument), then a taken id (AlreadyExists). On success the task sits under the trimmed id. Errors change nothing, and the switch is left alone. |
| TaskStore.TaskServiceServer.ListTasks | cmd/server/main.go:140-178 | The reply is the pagination of the insertion-ordered sequence, and the store does not change. |
| TaskStore.TaskServiceServer.StoredTasksAreFound | cmd/server/main.go:93-109 | Every stored task is found by GetTask under its own id. |
| TaskStore.CreateThenGet | cmd/server/taskservice_bufconn_test.go:98-133 | A created task is fetched back, unchanged, by the id it was given. The store stays consistent. |
| TaskStore.InjectedFailure | cmd/server/taskservice_bufconn_test.go:430-448 | After FailNextUnavailable, the next create is Unavailable whatever its title. The one after it succeeds exactly when its title is not blank. The store stays consistent. |
| TaskStore.DuplicateId | cmd/server/taskservice_bufconn_test.go:363-390 | A second CreateTaskWithId under the same id is AlreadyExists and leaves the sequence as the first call left it. The store stays consistent. |
| Auth.Intercept | cmd/server/auth_interceptor.go:13-27 | The handler runs, and its reply is passed through, exactly when the first `authorization` value equals "Bearer " followed by the token. A rejection is Unauthenticated exactly when there is no metadata, no value or a blank first value. Any other rejection is PermissionDenied. |
| Auth.CredentialNotBlank | cmd/server/auth_interceptor.go:20-23 | The accepted credential is never blank, so the blank check never turns it away. |
| Auth.OnlyFirstValueCounts | cmd/server/auth_interceptor.go:19-23 | Values after the first never change the answer. |
| Auth.BlankIsUnauthenticated | cmd/server/auth_interceptor.go:15-22 | No metadata, no value, an empty value and an all-space value are each Unauthenticated. |
| Auth.CredentialAccepted | cmd/server/auth_interceptor.go:23-26 | The exact credential reaches the handler, whatever values follow it. |
| Auth.WrongTokenDenied | cmd/server/taskservice_bufconn_test.go:411-428 | "Bearer something", checked against the token "devtoken", is PermissionDenied. |
| Auth.PaddedCredentialDenied | cmd/server/auth_interceptor.go:20-24 | The comparison is not trimmed, so " Bearer devtoken" is PermissionDenied. |
| Retry.RetryFromPolicy | internal/retry/retry.go:11-26 | The reference definition makes at most the allowed calls and returns the last call's outcome. Every call before the last was Unavailable. It stops early only on success or a different error. |
| Retry.RetryMeetsPolicy | internal/retry/retry.go:11-26 | The reference retry meets the retry policy for every attempt count. |
| Retry.PolicyDeterminesRetry | internal/retry/retry.go:11-26 | Any outcome and call count that meet the policy are exactly the reference ones. |
| Retry.AllUnavailable | internal/retry/retry.go:13-25 | When every allowed call is Unavailable, all of them run and the last Unavailable error is returned. |
| Retry.RetryAfterOneUnavailable | cmd/server/taskservice_bufconn_test.go:464-478 | With three attempts, one Unavailable followed by a success ends in success after two calls. |
| Retry.NoRetryOnOtherErrors | internal/retry/retry.go:18-23 | An error other than Unavailable is returned after the single call that produced it. |
| Retry.CallWithRetry | internal/retry/retry.go:11-26 | The loop's error and call count meet the retry policy and equal the reference definition, for every attempt count, including zero and negative ones. |

## Left out

- Locking and concurrency: the reader/writer lock is not modelled, and every call runs alone. The two reads the service makes outside the lock are described above but not explored.
- Time: the creation timestamp is an input, `now`, given to CreateTask and CreateTaskWithId.
- The uuid generator: CreateTask is given the generated id as an input. Its only promise is that the id is a canonical lower-case 8-4-4-4-12 uuid not yet in the map.
- TaskStore.TaskServiceServer.CreateTask: has `requires uuid !in taskMap`. That is the generator's uniqueness promise, which the Go code does not check.
- Protocol buffers and gRPC transport: the messages are plain datatypes, and a status error is modelled by its code alone, without its message text.
- TaskStatus: only the two values this core sees, unspecified and Pending, are modelled.
- Go strings are byte strings, but they are modelled as sequences of characters. White space and digits are the same either way for the inputs these operations inspect.
- Pagination.Paginate: `offset + page_size` is unbounded here. In Go it cannot overflow, because the offset there is below the slice length.
- Pagination.PaginateSpec: the clause saying the next token reads back as the end offset assumes the sequence length fits in a 64-bit `int`, as a Go slice length does.
- Pagination.WalkVisitsEveryItemOnce: assumes the same length bound. It bounds the client's calls by the sequence length plus one.
- Auth.Intercept: `md` stands for two things the interceptor reads: whether the incoming context carries metadata, and the values stored under `authorization`. Header-name case folding is left to gRPC and not modelled.
- Retry.CallWithRetry: the operation is given as the sequence of outcomes its successive calls return, and the sequence must be at least as long as the attempt count. The 50 ms pause between calls and the context argument are not modelled.
- The greeter service, the `main` functions of the server and the clients, and the `scratch/` programs are outside this model.
- The test harness (bufconn listener, client set-up) is not modelled. Its checks appear as the scenario methods and example lemmas cited above.
