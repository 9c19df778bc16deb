# Verified models of the network demos

The repository is a collection of ESP32 demos. Five of them carry logic of their own; this project models that
logic in Dafny and proves what it promises, over every input, every run and every interleaving.

`dafny verify dfyconfig.toml` checks everything.

## What is modelled

**The chunked file servers.** `Chunking` is the sequential task both servers perform for one client: a header, then
the file in pieces of 100 bytes. `EventLoops` is the coroutine server's event loop, a class whose methods are the
critical sections under its mutex. `CoroutineServer` is the whole server as a transition system of three parties: the
accept thread (accept a client and post its first task; signal; stop), the worker (loop test, critical section, wait,
wake-up, run a task, resume a coroutine, `post_delayed`) and the clock. The points where another party can interfere
are states of their own: between changing a queue and signalling, between the loop test and the lock, between
computing a deadline and taking the lock, between `send` and `resume`. Clients are numbered by connection, because
descriptor numbers are reused after `close`. `CoroutineInvariants`, `CoroutineStreams` and `CoroutineTiming` prove what
each step keeps; `CoroutineTheorems` states safety over whole runs; `CoroutineLiveness` proves counts, bounds and
termination, `CoroutineFairness` service on infinite runs. `PthreadServer` is the thread-per-client server, with threads interleaved in any order and the end of its
accept loop, which frees the file under the threads; and the theorem that both servers hand every client the same pieces.

**The non-blocking echo server** (`Sockets`, `SendLoop`, `EchoServer`). The system calls are a nondeterministic `Kernel`
that logs, for every descriptor ever opened, what its peer sent and was sent, the calls of `recv` and `send`, those that
failed and with which `errno`, and how often it was closed. `SendLoop` is the partial-write loop as a function of the results of its calls. The
server's methods work in place on the slot table and the one shared buffer.

**The mock AEAD and the UDP demo around it** (`Bytes`, `MockAead`, `Datagram`). The provider's loops over byte arrays are proved
against functions, and those against each other: round trip, exact acceptance, exact change detection. Sender and
receiver are proved end to end over a channel that loses, repeats and reorders.

**What HTTP clients read** (`HttpReader`, `HttpResponses`). A client that reads lines up to an empty one, looks up fields and
takes the rest as the body; and what the three HTTP servers tell it, over all their runs.

**The IoT message parser** (`CStrings`, `IotParser`, `Decimal`, `JsonField`). NUL-terminated strings in fixed buffers,
splitting in a private copy, field extraction, reading and printing of integers.

**The hand-made TCP server** (`TcpSegments`, `TcpServer`, `TcpSessions`). The bounded packet log, the waits that search it, one
session from SYN to FIN with its exact packets, any number of sessions on one log, and reassembly by sequence number.

## What was found

* `lwip-intro/sockets/tcp_server.c:120-132` promises to send all bytes. After a transient error `written` is -1 and
  `to_write` grows by one, so it does so exactly when no call fails transiently
  (`SendLoop.FaithfulIffNoTransient`, with concrete runs in `SendLoop.TransientExamples`).
* `ascon/README.md:13` says the counter is used as AAD to bind the sequence. The receiver takes the AAD from the nonce
  (`ascon/receiver/main/receiver.c:96-105`), and under the mock provider nonce and AAD cancel in the first eight tag
  columns: an accepted packet stays accepted under another nonce exactly when the second halves of the nonces agree
  (`Datagram.NonceBinding`, concretely `Datagram.CounterIsNotBound`). The model follows the code.
* The pthread server frees the file when `accept` fails (`async-server/server/main/async_server_pthread.c:94-105`), while
  its detached threads may still send from it. Clients get the file in every case exactly when no thread has a piece
  left to send at that moment (`PthreadServer.FreeingIsHarmlessIff`, a failing run in `PthreadServer.FreedExample`).
* No wake-up is lost in the coroutine server although neither wait predicate mentions the scheduled queue. A
  `post_delayed` beside a waiting worker would be safe exactly when the wait ends no later than the new deadline
  (`CoroutineTheorems.DelayedPostBesideAWait`); the server never gets there, because only coroutines that the worker
  itself resumed call it.
* The buffer for the searched `"key":` holds 35 characters. A quoted field comes back exactly when its key has at most
  32 characters, but for one accidental match (`JsonField.FieldComesBackIff`); a 34-character key makes the extraction
  return ":" (`JsonField.LongKeyExample`).
* The UDP receiver takes datagrams of up to 2048 bytes and decrypts them into 1024 bytes
  (`ascon/receiver/main/receiver.c:79-105`). That is enough exactly for what is rejected and for datagrams of at most 1056
  bytes (`Datagram.StaysInsideIff`); `Datagram.OverlongPacket` is an accepted one that does not fit. The repository's own
  sender stays far below.
* The TCP server looks for a SYN in a log it never clears. While the SYN of one session is among the last 100 packets on the
  port and no other came after it, the next session takes it again (`TcpSessions.SynServedAgain`).
* The TCP server never reduces its numbers modulo 2^32. They are 32-bit sequence numbers exactly when the session's
  greatest one is (`TcpServer.NumbersFitIff`); for initial numbers it can draw, it is not (`TcpServer.NumbersOverflow`).

## Model

| member | source | states |
|---|---|---|
| EventLoops.EventLoop.Stop | async-server/server/main/async_server_coroutines.cpp:84-87 | the critical section of `stop` clears `running` and leaves both queues as they are |
| EventLoops.EventLoop.Post | async-server/server/main/async_server_coroutines.cpp:95-98 | the critical section of `post` puts the task at the end of the immediate queue |
| EventLoops.EventLoop.PostDelayed | async-server/server/main/async_server_coroutines.cpp:103-107 | the task is scheduled for the clock as read before the lock plus the delay |
| EventLoops.EventLoop.Top | async-server/server/main/async_server_coroutines.cpp:22-32 | the front of the priority queue is an entry with no earlier deadline beside it |
| EventLoops.EventLoop.TakeNext | async-server/server/main/async_server_coroutines.cpp:45-77 | the worker's critical section is the queue-level step `Take`: immediate tasks first and in order, a scheduled one only when it is earliest and due, otherwise the deadline to wait for |
| CoroutineServer.Coroutine.Resume | async-server/server/main/async_server_coroutines.cpp:161-175 | from one suspension point to the next: the frame moves as `Advance` says, and what is awaited there is the next piece, a pause of 200 ms, or the close at the end |
| CoroutineServer.QueueSteps | async-server/server/main/async_server_coroutines.cpp:83-109 | each step of the server changes the queues exactly as one of the event loop's methods does, and no other step does; the accept thread's changes are signalled next, the worker's own are made when it is not waiting |
| Chunking.ChunkLength | async-server/server/main/async_server_coroutines.cpp:165-167 | a piece has 1 to 100 bytes, stays inside the file, and is shorter only as the last |
| Chunking.SendFile | async-server/server/main/async_server_pthread.c:37-44 | the loop over `offset` sends exactly the sequential specification's pieces |
| Chunking.ChunkPartition | async-server/server/main/async_server_pthread.c:37-40 | ceil(size / 100) pieces, the k-th being file[100k..min(100(k+1), size)] |
| Chunking.ScriptPrefix | async-server/server/main/async_server_coroutines.cpp:161-168 | header and k pieces together are header ++ file[..min(100k, size)], for every k |
| Chunking.ScriptComplete | async-server/server/main/async_server_coroutines.cpp:161-171 | the whole script is header ++ file, for every file, the empty one included |
| CoroutineInvariants.OneStep | async-server/server/main/async_server_coroutines.cpp:45-109 | every step keeps one continuation for each live client, counted over both queues and the worker |
| CoroutineInvariants.NotQueued | async-server/server/main/async_server_coroutines.cpp:48-61 | what the worker has taken is in neither queue |
| CoroutineInvariants.DescriptorsStep | async-server/server/main/async_server_coroutines.cpp:173 | every step keeps open descriptors and live clients in one-to-one correspondence, through reuse of numbers |
| CoroutineInvariants.CoreStep | async-server/server/main/async_server_coroutines.cpp:127-175 | every step keeps continuations, the kind each suspended frame waits for, and descriptors right |
| CoroutineStreams.AwaitedPiece | async-server/server/main/async_server_coroutines.cpp:162-168 | what a suspended coroutine has asked to send is the next piece of the script |
| CoroutineStreams.StreamsStep | async-server/server/main/async_server_coroutines.cpp:142-147 | every step keeps every client's stream at exactly the sends its frame has completed |
| CoroutineStreams.CountsStep | async-server/server/main/async_server_coroutines.cpp:152-175 | resumptions done plus resumptions to come are 1 + 2 ceil(size / 100), at every step |
| CoroutineTiming.WaitsStep | async-server/server/main/async_server_coroutines.cpp:64-75 | every step keeps a waiting worker's deadline right for the scheduled queue, and a wait that should end is about to be signalled |
| CoroutineTiming.FifoStep | async-server/server/main/async_server_coroutines.cpp:49-53 | every step keeps: tasks posted = tasks taken, in order, then tasks queued |
| CoroutineTiming.DeadlinesStep | async-server/server/main/async_server_coroutines.cpp:55-61 | every step keeps scheduled starts in deadline order and none before its deadline |
| CoroutineTiming.SpacingStep | async-server/server/main/async_server_coroutines.cpp:166-170 | every step keeps consecutive pieces of one client 200 ms apart |
| CoroutineTheorems.InvStep | async-server/server/main/async_server_coroutines.cpp:41-175 | every step of accept thread, worker, scheduler and clock keeps the whole invariant |
| CoroutineTheorems.InvRun | async-server/server/main/async_server_coroutines.cpp:41-175 | so does every run |
| CoroutineTheorems.WhatCanHappen | async-server/server/main/async_server_coroutines.cpp:224-231 | in every reachable state of the running server a client is accepted if and only if no live client holds its number, once the last signal is given; `stop`, a signal due, a wake-up without a cause, a time-out at its deadline and any passing of time are always possible |
| CoroutineTheorems.ManyAtOnce | async-server/server/main/async_server_coroutines.cpp:224-231 | for every n there is a run after which n clients are live at once |
| CoroutineTheorems.RunsUntilStopped | async-server/server/main/async_server_coroutines.cpp:83-92 | over any run the server runs exactly until `stop` |
| CoroutineTheorems.ExactlyOneContinuation | async-server/server/main/async_server_coroutines.cpp:94-149 | in every reachable state a live client has exactly one continuation and a finished one none; a task about to run finds its coroutine suspended at the matching `co_await` |
| CoroutineTheorems.NoLostWakeup | async-server/server/main/async_server_coroutines.cpp:64-75 | in every reachable state: an untimed wait means nothing is scheduled, a timed one has the least deadline, and if the wait should be over its signal is still to come |
| CoroutineTheorems.DelayedPostBesideAWait | async-server/server/main/async_server_coroutines.cpp:102-109 | a delayed post beside a waiting worker keeps its wait right if and only if the wait is timed and ends no later |
| CoroutineTheorems.StreamsFollowScript | async-server/server/main/async_server_coroutines.cpp:142-173 | under every interleaving a client has been sent nothing or header ++ file[..min(100k, size)], and header ++ file once finished, in exactly the script's pieces |
| CoroutineTheorems.FinishedIsFinal | async-server/server/main/async_server_coroutines.cpp:173-175 | once finished a client is never resumed and nothing more reaches its connection, in any continuation of the run |
| CoroutineTheorems.SendsReachTheirClient | async-server/server/main/async_server_coroutines.cpp:142-147 | a send adds the awaited piece to the stream of its own client and changes nobody else |
| CoroutineTheorems.PostedInOrder | async-server/server/main/async_server_coroutines.cpp:94-100 | posted tasks are taken in the order of posting, none twice, none left out |
| CoroutineTheorems.DeadlinesRespected | async-server/server/main/async_server_coroutines.cpp:55-61 | over every run no scheduled task starts early, deadlines of started tasks never decrease, and two pieces for one client are at least 200 ms apart |
| CoroutineTheorems.PauseIsExact | async-server/server/main/async_server_coroutines.cpp:166-170 | after a piece the coroutine is scheduled for exactly 200 ms after it went on, however late the worker gets to it |
| CoroutineLiveness.WorkStep | async-server/server/main/async_server_coroutines.cpp:152-175 | the summed remainder changes by + (1 + 2 ceil(size / 100)) on accept, by -1 on resumption, and otherwise not at all |
| CoroutineLiveness.ExactCount | async-server/server/main/async_server_coroutines.cpp:161-175 | a client is finished if and only if it has been resumed 1 + 2 ceil(size / 100) times, and is never resumed more often |
| CoroutineLiveness.BoundedService | async-server/server/main/async_server_coroutines.cpp:41-80 | whatever the interleaving, the program's own steps are at most 10 Work + 11, plus one for each idle wake-up and 10 (1 + 2 ceil(size / 100)) + 2 for each client that arrives meanwhile |
| CoroutineLiveness.NextStep | async-server/server/main/async_server_coroutines.cpp:64-78 | with an unfinished client the program has a step now, or once the clock reaches the deadline the worker waits for |
| CoroutineLiveness.WorkBalance | async-server/server/main/async_server_coroutines.cpp:152-175 | over any run, the resumptions done and those still to do are those there were to do and 1 + 2 ceil(size / 100) for each arrival |
| CoroutineLiveness.ServedIffResumed | async-server/server/main/async_server_coroutines.cpp:152-175 | a run has served everybody if and only if it has resumed as often as there was work at its beginning and 1 + 2 ceil(size / 100) times for each arrival; no run resumes more often |
| CoroutineLiveness.StalledIsServed | async-server/server/main/async_server_coroutines.cpp:41-80 | a run without `stop`, however scheduled, after which the program can go no further at any later time has served everybody |
| CoroutineFairness.FairRunServesAll | async-server/server/main/async_server_coroutines.cpp:41-80 | every infinite run without `stop` in which time passes, the program is not held up for ever while it could go on, and arrivals and idle wake-ups come to an end has everybody served from some moment on |
| CoroutineFairness.FairRunExists | async-server/server/main/async_server_coroutines.cpp:41-80 | from every state there is such a run |
| CoroutineLiveness.EveryoneIsServed | async-server/server/main/async_server_coroutines.cpp:41-80 | from every running state the program, given time, reaches a state in which all its clients are finished |
| CoroutineLiveness.StopNeverStuck | async-server/server/main/async_server_coroutines.cpp:83-92 | after `stop` the worker has a step until it is gone, or its signal is still to come |
| CoroutineLiveness.StopTerminates | async-server/server/main/async_server_coroutines.cpp:83-92 | over every run after `stop`, idle wake-ups included, at most ten steps but those of the clock are left, and each one taken is one less |
| CoroutineLiveness.StoppedIffExited | async-server/server/main/async_server_coroutines.cpp:83-92 | such a run can go no further if and only if the worker is gone and every signal is given |
| CoroutineLiveness.StopReachesExit | async-server/server/main/async_server_coroutines.cpp:83-92 | from every stopped state at most ten steps of the program lead to the worker's end, so `join` returns |
| PthreadServer.HeaderIsWhole | async-server/server/main/async_server_pthread.c:27-35 | no size that fits a 64-bit `size_t` has its header cut by the 256-byte buffer |
| PthreadServer.InvStep | async-server/server/main/async_server_pthread.c:21-49 | every step of a thread, of the accept loop, of its end and of whoever reuses the freed memory keeps the streams' shape, the threads' progress and the descriptors' owners right |
| PthreadServer.WhatCanHappen | async-server/server/main/async_server_pthread.c:94-105 | in every reachable state a client is accepted, with a thread or without, if and only if the accept loop runs and no open connection has its number; the loop can end at any time, and after it any bytes can replace the file |
| PthreadServer.ManyAtOnce | async-server/server/main/async_server_pthread.c:94-103 | for every n there is a run after which n threads are at work at once |
| PthreadServer.ThreadsNeverStuck | async-server/server/main/async_server_pthread.c:94-103 | a thread can go on if and only if it exists and is not done |
| PthreadServer.ExactCount | async-server/server/main/async_server_pthread.c:35-46 | a thread is done if and only if it has taken 2 + 2 ceil(size / 100) steps, and takes no more |
| PthreadServer.StreamsFollowScript | async-server/server/main/async_server_pthread.c:27-47 | under every interleaving a client is sent the header and pieces of the script's lengths; they are a prefix of the script, and header ++ file once its thread is done, unless the accept loop ended while a thread had a piece left to send |
| PthreadServer.FreeingIsHarmlessIff | async-server/server/main/async_server_pthread.c:94-105 | when `accept` fails, every continuation, whatever becomes of the freed memory, gives every client a prefix of the script and in the end all of it, if and only if no thread has a piece left to send at that moment |
| PthreadServer.FreedExample | async-server/server/main/async_server_pthread.c:94-105 | a concrete run in which a client is sent a byte of reused memory |
| PthreadServer.ServersAgree | async-server/server/main/async_server_pthread.c:37-44 | for any two runs of the two servers and any two clients, the pieces after the headers are prefixes of one another, and equal when both clients are done; an accept loop that ended had no thread with a piece left to send |
| HttpResponses.CoroutineResponse | async-server/server/main/async_server_coroutines.cpp:154-168 | off header and file a client reads status 200, the file's length as the value of Content-Length, the two other fields, and after the first empty line exactly the file |
| HttpResponses.CoroutineClientUnderstands | async-server/server/main/async_server_coroutines.cpp:152-175 | over every run, that is what a finished client has read off its connection |
| HttpResponses.PthreadResponse | async-server/server/main/async_server_pthread.c:27-41 | the same for the pthread server's header, which has no Connection field |
| HttpResponses.PthreadClientUnderstands | async-server/server/main/async_server_pthread.c:27-46 | and over every run whose accept loop did not end while a thread had a piece left to send |
| HttpResponses.TcpResponse | lwip/rcvwnd_issue/scripts/scapy_tcp_server.py:330-339 | the same for the response of the hand-made server |
| HttpResponses.TcpClientUnderstands | lwip/rcvwnd_issue/scripts/scapy_tcp_server.py:330-379 | a client that got each data packet of a served session, in any order, and reads on from s0 + 1 as far as there are bytes has read status 200, the length of the data, and the data |
| SendLoop.ToWriteBalance | lwip-intro/sockets/tcp_server.c:122-130 | to_write = len - sum of bytes written + number of transient errors, never negative, for any results |
| SendLoop.SendsPrefix | lwip-intro/sockets/tcp_server.c:123-130 | without transient errors the bytes sent are a prefix of the data, for any split into partial sends |
| SendLoop.FaithfulIffNoTransient | lwip-intro/sockets/tcp_server.c:109-132 | a loop that ends has sent exactly the data if and only if no call failed transiently |
| SendLoop.TransientExamples | lwip-intro/sockets/tcp_server.c:125-129 | concrete results under which a byte is sent twice or the offset is negative |
| SendLoop.ErrorsAre | lwip-intro/sockets/tcp_server.c:125 | after -1 the loop goes on exactly on EINPROGRESS, EAGAIN and EWOULDBLOCK, and ends on any other `errno` |
| SendLoop.FailsIffHardError | lwip-intro/sockets/tcp_server.c:120-131 | it fails if and only if one of its errors is none of these three |
| EchoServer.EndedEcho | lwip-intro/sockets/tcp_server.c:257-276 | one client's turn keeps the connection's output a prefix of its input, and equal to it when the turn is over and the slot kept; the slot is lost exactly when a call failed for good |
| EchoServer.DropsIffError | lwip-intro/sockets/tcp_server.c:257-276 | a turn costs the client its slot if and only if one of its calls failed with an error other than the three |
| EchoServer.TurnMeans | lwip-intro/sockets/tcp_server.c:257-276 | after a turn that keeps the slot the bytes added to the output are the bytes received in it if and only if no `send` failed transiently |
| EchoServer.Fill | lwip-intro/sockets/tcp_server.c:228 | a new descriptor in a free slot keeps slots distinct and equal to the open descriptors |
| EchoServer.Vacate | lwip-intro/sockets/tcp_server.c:261-262 | closing a slot's socket and freeing the slot keeps them so |
| EchoServer.Server.CloseSlots | lwip-intro/sockets/tcp_server.c:291-295 | the clean-up loop closes each socket of the table once and nothing else |
| EchoServer.Server.SocketSend | lwip-intro/sockets/tcp_server.c:120-132 | the loop performs exactly the results' specification on its own connection, touches no other, and returns len or -1 accordingly |
| EchoServer.Server.TryReceive | lwip-intro/sockets/tcp_server.c:91-107 | the number of bytes and the bytes; 0 for EINPROGRESS, EAGAIN and EWOULDBLOCK, -2 for ENOTCONN, -1 for any other error |
| EchoServer.Server.Drop | lwip-intro/sockets/tcp_server.c:261-262 | closes the slot's descriptor once and frees exactly that slot |
| EchoServer.Server.Reply | lwip-intro/sockets/tcp_server.c:267-276 | the bytes go back as the results of the `send` calls say, to the end or until bytes are left after the allowed number of calls; the slot is lost exactly when a call failed for good |
| EchoServer.Server.Handle | lwip-intro/sockets/tcp_server.c:258-277 | an error of `recv` or `send` costs the client its slot and nothing else does, data goes back to it, no data changes nothing |
| EchoServer.Server.Serve | lwip-intro/sockets/tcp_server.c:254-279 | one client has exactly one turn, its echo is correct, nobody else's log or slot changes |
| EchoServer.Server.ServeAll | lwip-intro/sockets/tcp_server.c:252-280 | every connected client has exactly one turn and keeps its slot exactly if no call failed for good, every other descriptor stays as it was; or the pass stops in one client's `send` loop, with bytes left after the allowed number of calls, the slots before it served and those after it untouched |
| EchoServer.Server.FindFree | lwip-intro/sockets/tcp_server.c:217-223 | the first free slot, or the table's size |
| EchoServer.Server.AcceptInto | lwip-intro/sockets/tcp_server.c:228-249 | the accepted socket is in that slot and nowhere else; the server goes on exactly when nothing failed or `accept` would only have blocked |
| EchoServer.Server.AcceptNext | lwip-intro/sockets/tcp_server.c:217-250 | one `accept` for the first free slot, none when there is no free slot; the server goes on exactly unless that `accept` or the `fcntl` after it made it give up |
| EchoServer.Server.CloseAll | lwip-intro/sockets/tcp_server.c:286-295 | the listener and every client are closed, nothing is closed twice |
| EchoServer.Server.SetUp | lwip-intro/sockets/tcp_server.c:166-210 | whichever call fails, the table is empty and the listener is the only descriptor that can be open; it succeeds exactly when the last call, `listen`, does |
| EchoServer.Server.Leave | lwip-intro/sockets/tcp_server.c:286-295 | on the way out through `error` every descriptor ever opened has been closed exactly once |
| EchoServer.Server.Round | lwip-intro/sockets/tcp_server.c:213-284 | an accept half and a serve half; or stuck in one client's `send` loop; or out through `error`, and only because the accept half made the server give up |
| EchoServer.Server.Run | lwip-intro/sockets/tcp_server.c:156-299 | over any finite part of any run: it begins with the empty table, is a sequence of such rounds, ends where the last of them leads; descriptors are conserved, at every round's beginning every open connection is echoed and has not failed, and every exit has a failing call for its cause and closes everything |
| EchoServer.EachRound | lwip-intro/sockets/tcp_server.c:213-284 | a round gives the client of a slot one turn; the slot is kept if and only if every call that failed did so with EINPROGRESS, EAGAIN or EWOULDBLOCK, and then everything received so far has been sent back |
| EchoServer.HistoryGrows | lwip-intro/sockets/tcp_server.c:213-284 | over a run no connection's log is ever cut or rewritten |
| Bytes.Octet | ascon/sender/main/sender.c:46 | a number below 256 becomes the octet with that number |
| MockAead.Absorb | ascon/components/crypto_aead/provider_mock.c:12-13 | the loop XORs into entry j all bytes at positions congruent to j modulo 16 |
| MockAead.FakeTag | ascon/components/crypto_aead/provider_mock.c:6-15 | tag byte j is key ^ nonce ^ ciphertext column ^ AAD column |
| MockAead.AeadEncrypt | ascon/components/crypto_aead/provider_mock.c:17-31 | the array holds body and tag, the rest of it is untouched, `*clen` is set when given |
| MockAead.AeadDecrypt | ascon/components/crypto_aead/provider_mock.c:33-49 | 0 exactly when accepted, with the plaintext written; otherwise -1 with buffer and `*mlen` unchanged |
| MockAead.DecryptEncrypt | ascon/components/crypto_aead/provider_mock.c:17-49 | decrypting an encryption gives the message, for every message, AAD, nonce and key |
| MockAead.AcceptedIsEncrypted | ascon/components/crypto_aead/provider_mock.c:38-48 | an accepted ciphertext is the encryption of its plaintext |
| MockAead.AcceptedIffColumns | ascon/components/crypto_aead/provider_mock.c:38-43 | a ciphertext of at least 16 bytes is accepted if and only if every tag column is key ^ nonce ^ body column ^ AAD column |
| MockAead.UndetectedIffCancelling | ascon/components/crypto_aead/provider_mock.c:11-13 | a change of an accepted ciphertext and AAD goes undetected if and only if it cancels in every column |
| MockAead.OneByteOfCiphertext | ascon/components/crypto_aead/provider_mock.c:42-43 | changing exactly one byte of body or tag is always detected |
| MockAead.OneByteOfAad | ascon/components/crypto_aead/provider_mock.c:42-43 | changing exactly one byte of the AAD is always detected |
| MockAead.ColumnOfAppend | ascon/components/crypto_aead/provider_mock.c:12-13 | a column is the XOR of the bytes at positions congruent modulo 16, byte after byte |
| MockAead.CiphertextDifference | ascon/components/crypto_aead/provider_mock.c:23-25 | any two ciphertext bytes at one position differ by the XOR of the differences of message, key and nonce bytes |
| MockAead.ZerosStayZeros | ascon/components/crypto_aead/provider_mock.c:23-25 | zeros under a zero key and a zero nonce encrypt to zeros |
| MockAead.KeyReachesEveryByte | ascon/components/crypto_aead/provider_mock.c:23-25 | two keys give the same ciphertext byte if and only if they agree in that byte's key byte |
| Datagram.Be64 | ascon/sender/main/sender.c:44-47 | writes the eight base-256 digits, most significant first, and nothing else |
| Datagram.DecodeEncode | ascon/sender/main/sender.c:44-47 | decoding the digits gives every number below 256^n back |
| Datagram.EncodeDecode | ascon/sender/main/sender.c:44-47 | and encoding gives every digit string back |
| Datagram.DigitAt | ascon/sender/main/sender.c:44-47 | digit i of n is the one of value 256^(n - 1 - i), so the most significant comes first |
| Datagram.Buffers.Build | ascon/sender/main/sender.c:93-120 | the static buffers yield nonce ++ ciphertext ++ tag for this counter, iteration after iteration |
| Datagram.PacketBytes | ascon/sender/main/sender.c:93-120 | every byte of a packet: counter digits, eight zeros, message ^ key ^ nonce, and a tag of key and body alone, because nonce and AAD cancel |
| Datagram.Send | ascon/sender/main/sender.c:89-138 | iteration i sends the packet of message i under counter (1 + i) mod 2^64 |
| Datagram.StaysInsideIff | ascon/receiver/main/receiver.c:101-116 | the receiver writes inside its plaintext buffer, terminator included, if and only if the datagram is rejected or has at most 1056 bytes |
| Datagram.PacketFitsIff | ascon/receiver/main/receiver.c:101-105 | a sender's packet fits if and only if its message has at most 1024 bytes |
| Datagram.OverlongPacket | ascon/receiver/main/receiver.c:101-105 | a datagram of 1057 bytes that is accepted and written past the buffer's end |
| Datagram.ReceiveAll | ascon/receiver/main/receiver.c:78-125 | each datagram is classified and decrypted by itself, whatever the static buffers hold, up to the first one that is not written inside the plaintext buffer, if there is one |
| Datagram.PacketArrives | ascon/receiver/main/receiver.c:87-105 | a sent packet is accepted and yields message and counter |
| Datagram.EndToEnd | ascon/receiver/main/receiver.c:78-118 | over any loss, repetition and reordering every packet that arrives is accepted with its own message and counter, and until the counter wraps the counter identifies the message |
| Datagram.NoncesRepeatExactlyOnWrap | ascon/sender/main/sender.c:93-94 | two iterations share a nonce if and only if they are a multiple of 2^64 apart |
| Datagram.NonceBinding | ascon/receiver/main/receiver.c:96-105 | an accepted packet stays accepted under another nonce if and only if the nonces' second halves agree |
| Datagram.CounterIsNotBound | ascon/receiver/main/receiver.c:96-105 | a sent packet is accepted under any other counter; its message survives if and only if no byte lies where the nonces differ |
| Datagram.BytesToHex | ascon/sender/main/sender.c:49-59 | the hex text and its terminator, or nothing when they do not fit |
| Datagram.HexInjective | ascon/receiver/main/receiver.c:35-45 | different byte strings have different hex texts |
| Datagram.HexReadsBack | ascon/receiver/main/receiver.c:35-45 | read as hexadecimal digits, two at a time, the text gives the bytes back |
| CStrings.Find | fuzz-me/sample/iot_parser.c:32 | `strchr`: the least position, or the end |
| CStrings.FindText | fuzz-me/sample/iot_parser.c:46 | `strstr`: an occurrence with none before it, or none at all |
| CStrings.StrChr | fuzz-me/sample/iot_parser.c:78 | the search in a buffer finds what the specification finds in its text |
| CStrings.StrCpy | fuzz-me/sample/iot_parser.c:76 | the text, its terminator, and the rest of the buffer as before |
| IotParser.SplitJoined | fuzz-me/sample/iot_parser.c:31-39 | cutting gives (head, tail) if and only if the input is head ++ " " ++ tail with a space-free head |
| IotParser.ParseMqttTopic | fuzz-me/sample/iot_parser.c:31-39 | the buffers hold the two parts after "mqtt", or are untouched without a space |
| IotParser.Cut | fuzz-me/sample/iot_parser.c:78-80 | the first space of the copy becomes a terminator, so that two C strings remain |
| IotParser.ParseHttpRequest | fuzz-me/sample/iot_parser.c:74-97 | the buffers hold the three parts; without a second space only the method is written, without a first one nothing |
| IotParser.HttpSplitsJoined | fuzz-me/sample/iot_parser.c:78-92 | parsing gives (method, path, body) if and only if the input joins them by spaces and the first two have none |
| JsonField.FieldComesBackIff | fuzz-me/sample/iot_parser.c:43-61 | a quoted field comes back if and only if its key has at most 32 characters, but for one accident: a key that is blank after its 34th character and a text that is a colon and the field's own white space |
| JsonField.LongKey | fuzz-me/sample/iot_parser.c:43-61 | with a key of 34 characters or more the text ":" and white space is returned when the key's rest is blank, and a number otherwise |
| JsonField.KeyWithoutColon | fuzz-me/sample/iot_parser.c:43-69 | with a key of 33 characters the colon is read as the number 0 |
| JsonField.LongKeyExample | fuzz-me/sample/iot_parser.c:43-61 | a concrete document whose value "on" is read as ":" |
| JsonField.ExtractJsonValue | fuzz-me/sample/iot_parser.c:42-71 | the loop and the two branches give return value and buffer as `Extract` says, and leave the buffer alone when nothing is found |
| JsonField.FirstFieldStart | fuzz-me/sample/iot_parser.c:46-50 | the value begins after the first occurrence of the key and all white space behind it |
| JsonField.FieldReading | fuzz-me/sample/iot_parser.c:46-50 | every document in which the key is found reads that way |
| JsonField.QuotedField | fuzz-me/sample/iot_parser.c:52-61 | extraction gives a quoted text if and only if it is quote-free and stands between a quote and the next one |
| JsonField.ParseDigits | fuzz-me/sample/iot_parser.c:65 | `strtol` reads an optional sign and the longest run of digits and consumes exactly these; beyond the range of `long` it gives the nearer end of it |
| JsonField.SpacesAre | fuzz-me/sample/iot_parser.c:50 | white space is blank, tab, newline, vertical tab, form feed and carriage return |
| JsonField.ParsePrinted | fuzz-me/sample/iot_parser.c:65-67 | a printed `long` followed by no digit is read back, all of it consumed |
| JsonField.PrintParseIdempotent | fuzz-me/sample/iot_parser.c:65-67 | printing after parsing, on any text, is a fixed point |
| JsonField.NumericField | fuzz-me/sample/iot_parser.c:62-69 | an unquoted field with an optional sign and a maximal run of digits yields the canonical text of the clamped value and the number of characters consumed |
| JsonField.NoNumber | fuzz-me/sample/iot_parser.c:62-69 | an unquoted field that does not begin with a number yields "0" and 0 |
| JsonField.PrintedField | fuzz-me/sample/iot_parser.c:62-69 | a document with a printed `long` under the key yields its canonical text and its length |
| JsonField.ZeroMeans | fuzz-me/sample/iot_parser.c:47-70 | 0 is returned if and only if nothing is found, the text is empty, or no digit is read |
| Decimal.ValueOfPrintNat | fuzz-me/sample/iot_parser.c:67 | the printed digits denote the number |
| Decimal.DigitsAre | fuzz-me/sample/iot_parser.c:67 | the ten digits by their characters, and a further digit makes a number ten times as large plus that digit |
| Decimal.PrintShape | fuzz-me/sample/iot_parser.c:67 | no leading zero, a minus sign exactly for negative numbers, and no other sign |
| TcpServer.LogIsLastHundred | lwip/rcvwnd_issue/scripts/scapy_tcp_server.py:66-96 | after any capture the log is exactly the last 100 packets on the port, in order of arrival |
| TcpSessions.SoughtIsLogged | lwip/rcvwnd_issue/scripts/scapy_tcp_server.py:66-96 | whatever a wait looks for is logged when it is captured |
| TcpSessions.LogKeepsSought | lwip/rcvwnd_issue/scripts/scapy_tcp_server.py:66-96 | and is in the log as long as at most 99 TCP packets from or to the port have followed |
| TcpSessions.LogIsTraffic | lwip/rcvwnd_issue/scripts/scapy_tcp_server.py:66-96 | nothing else is ever in the log |
| TcpServer.Server.Capture | lwip/rcvwnd_issue/scripts/scapy_tcp_server.py:52-98 | the callback changes the log by one packet and keeps it what everything captured so far leaves in it |
| TcpServer.Server.FindLatest | lwip/rcvwnd_issue/scripts/scapy_tcp_server.py:197-206 | the latest admissible packet of the log that is not too old, or there is none |
| TcpServer.Server.Await | lwip/rcvwnd_issue/scripts/scapy_tcp_server.py:197-225 | a wait succeeds at the first look that shows an admissible packet, with the latest one there, or every look missed |
| TcpServer.Server.WaitForSyn | lwip/rcvwnd_issue/scripts/scapy_tcp_server.py:126-171 | the SYN's sender becomes the peer, its number plus one is acknowledged |
| TcpServer.Server.WaitForAck | lwip/rcvwnd_issue/scripts/scapy_tcp_server.py:180-228 | the number advances by one exactly when an admissible ACK was found |
| TcpServer.Server.WaitForGet | lwip/rcvwnd_issue/scripts/scapy_tcp_server.py:230-275 | the acknowledged number is the one after the request |
| TcpServer.Server.SendSegment | lwip/rcvwnd_issue/scripts/scapy_tcp_server.py:362-377 | the number advances by the segment's length, and unless it is the last the wait for exactly the number after it took place, successful or not |
| TcpServer.Server.SendHttpResponse | lwip/rcvwnd_issue/scripts/scapy_tcp_server.py:330-379 | the segments sent are those of the specification, for every payload and whatever is acknowledged, with a wait after each but the last chunk, on the log the one before it left |
| TcpServer.Server.WaitForFin | lwip/rcvwnd_issue/scripts/scapy_tcp_server.py:381-418 | the first FIN from the peer in the first of 120 attempts that sees one is answered; nothing is answered only if no attempt saw one |
| TcpServer.Server.Session | lwip/rcvwnd_issue/scripts/scapy_tcp_server.py:424-462 | a session sends exactly the packets that go with how far it got; all its waits, the data acknowledgements' included, each on the log the one before it left, and its FIN came out as the captured and sniffed packets say |
| TcpServer.Server.Run | lwip/rcvwnd_issue/scripts/scapy_tcp_server.py:420-470 | over any number of sessions: each begins with the log the one before it left and the last leaves the server's log, every one of these logs is the last 100 packets on the port captured by then, ever more of them, and what is sent is each session's packets, one session after the other |
| TcpServer.HandshakeIsExact | lwip/rcvwnd_issue/scripts/scapy_tcp_server.py:186-195 | a handshake completes only on a payload-free ACK from the SYN's sender for exactly s0 + 1 |
| TcpServer.SoughtPackets | lwip/rcvwnd_issue/scripts/scapy_tcp_server.py:133-399 | each kind of packet that is looked for, by addresses, port, flag bits, number and payload |
| TcpServer.RequestIsExact | lwip/rcvwnd_issue/scripts/scapy_tcp_server.py:230-268 | an answered request came from the SYN's sender and contains "GET" |
| TcpServer.DataAcksAwaited | lwip/rcvwnd_issue/scripts/scapy_tcp_server.py:365-377 | after each chunk but the last the server waited for the acknowledgement of the number after it, after the last it did not |
| TcpServer.NoFinSeen | lwip/rcvwnd_issue/scripts/scapy_tcp_server.py:397-418 | a session without a FIN saw none from the peer in the first 120 attempts |
| TcpServer.AnsweredFin | lwip/rcvwnd_issue/scripts/scapy_tcp_server.py:383-407 | a FIN that is answered arrived, in one of the first 120 attempts and from the peer, and none arrived in an earlier one |
| TcpServer.DataSent | lwip/rcvwnd_issue/scripts/scapy_tcp_server.py:362-364 | the data packets of a session are the segments of its response with the number after the request as acknowledgement, and no others |
| TcpServer.SessionDelivers | lwip/rcvwnd_issue/scripts/scapy_tcp_server.py:339-377 | a client that got each data packet at least once, in any order, reads exactly the response off the numbers from s0 + 1 |
| TcpServer.NumbersFitIff | lwip/rcvwnd_issue/scripts/scapy_tcp_server.py:363-403 | every number and acknowledgement of a served session is a 32-bit number if and only if its greatest number and the numbers after the client's SYN, request and FIN are |
| TcpServer.NumbersOverflow | lwip/rcvwnd_issue/scripts/scapy_tcp_server.py:142-143 | with the greatest initial number that can be drawn, 2^32 - 2, the second data packet of every response of more than 500 bytes carries a greater number than 32 bits hold |
| TcpSessions.FirstLookDecides | lwip/rcvwnd_issue/scripts/scapy_tcp_server.py:133-166 | a wait takes the latest admissible packet of its first look, however old; if there is none, nothing older than its start |
| TcpSessions.LookDecides | lwip/rcvwnd_issue/scripts/scapy_tcp_server.py:133-166 | a wait ends at the first look that shows a packet that counts, with the latest one there, and finds nothing when no look shows one |
| TcpSessions.SynTaken | lwip/rcvwnd_issue/scripts/scapy_tcp_server.py:133-166 | a session takes the latest SYN among the last 100 packets on the port at its first look, served before or not; if there is none, one not older than its start |
| TcpSessions.SynServedAgain | lwip/rcvwnd_issue/scripts/scapy_tcp_server.py:133-146 | the SYN a session took is taken by the next session too if it is still among the last 100 packets at that session's first look and no SYN came after it |
| TcpSegments.ResponseTiles | lwip/rcvwnd_issue/scripts/scapy_tcp_server.py:342-358 | 500, 500 and the rest cover any payload without gap or overlap, and no segment is empty |
| TcpSegments.CarrierExists | lwip/rcvwnd_issue/scripts/scapy_tcp_server.py:350-377 | every number is carried by exactly one segment |
| TcpSegments.DeliveredByte | lwip/rcvwnd_issue/scripts/scapy_tcp_server.py:350-377 | whatever is delivered, no number ever shows a wrong byte, and one shows nothing only if its segment is missing |
| TcpSegments.Reassembly | lwip/rcvwnd_issue/scripts/scapy_tcp_server.py:350-377 | from every segment at least once, in any order, exactly the payload is read off |

## Left out

Chunked file servers
- Mutex, condition variable and priority queue: a critical section is one step, ties between deadlines are broken
  arbitrarily, waits may wake spuriously.
- The unlocked reads of `running` are read as sequentially consistent.
- The return value of `send` is ignored by both servers; streams are the bytes handed to `send`.
- The wrap of `offset += 100` for files within 100 bytes of the largest `size_t`.
- Reading freed memory is modelled as reading arbitrary bytes; that it may also stop the program is not modelled.
- Socket creation, bind, listen, the file's embedding, logging and task statistics; allocation failure. A failing
  `pthread_create` is modelled: that connection is never served. The one-second pause of a thread is a state, not a time.
- `accept` and the post of the first task are one step of the accept thread; between them nobody else knows the client.
- CoroutineLiveness.EveryoneIsServed: is about one run; `CoroutineFairness.FairRunServesAll` is about every fair one.
- CoroutineFairness.FairRunServesAll: assumes that arrivals come to an end, because posted tasks are taken before scheduled
  ones, and idle wake-ups too, because one may precede every time-out of the wait.

Echo server
- EchoServer.Server.Run: is bounded by a number of rounds and of calls in each `send` loop, which are parameters; the
  source's loops are unbounded, so it speaks about every finite part of a run.
- EchoServer.EndedEcho: with transient errors it only promises one extra byte for each; which bytes they are is given by
  `SendLoop.Emitted`.
- A `recv` of 0 (orderly close) counts as "no data", as in the source, so the slot is not released.
- `getaddrinfo`, `fcntl`, `bind`, `listen` are arbitrary successes or failures, and so is what `fcntl(F_GETFL)` returns;
  `free(address_info)`, client addresses and logging are not part of this model.

AEAD and UDP demo
- Inputs of encryption and decryption are values, so overlapping buffers are not modelled.
- Datagram.ReceiveAll: says nothing after a write past the end of the plaintext buffer. A datagram is what `recvfrom` put
  into the 2048-byte buffer.
- Datagram.Send: requires messages of at most 496 bytes for the sender's 512-byte buffer; the source's own has 17.
- The sender's one fixed text is generalised to a list of messages; a failing `sendto` only shortens the list.
- The other AEAD providers wrap libraries whose code is not here; Wi-Fi start-up, timing and log lines.

IoT parser
- Capacities of the output buffers are preconditions, and so is the "mqtt" prefix's length, which `main` guarantees.
- `strtol`, `strstr`, `strchr`, `isspace` and `snprintf` are given by specification functions (section 7.22.1.4 of
  ISO/IEC 9899:2011 for `strtol`); characters are not negative; LONG_MAX is a parameter.
- The analysis printers, the unknown-format branch of `main` and the fuzzing harnesses.

TCP server
- Sequence numbers are unbounded, as in Python; `NumbersFitIff` says when that makes no difference.
- The log is never cleared between sessions, as in the source: waits promise the latest admissible packet, not a fresh one.
- `running`, signals and exceptions. The sniffer thread is the lists of packets captured before each look at the log, and
  a time-out is the end of such a list. Building and dissecting packets is Scapy's.
- `run` resets numbers and client to None before each session; they are always set again before they are read, so the
  model leaves the reset out.

Not modelled at all
- The libssh, BACnet, avahi, PLC, PPPoE, DHCP and network-interface demos, the receive-window client and the Wi-Fi
  retry code: glue around libraries, or one-function facts.
