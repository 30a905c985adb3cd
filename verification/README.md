# Icecast: stream framing and concurrency, modelled and proved

A Dafny model of the parts of the Icecast server where bytes of a stream are framed, cut up and put together
again, and of its small concurrent protocols. Sockets, servers and other threads are not fixed: a write takes
any number of bytes, a read returns any part of the stream, a thread may fail to start, and steps of different
threads come in any order. Every result is for all of these.

Each file models one part of the source in the source's own form: objects that are updated in place are
classes, buffers are arrays, loops are loops. Beside each stands what it is supposed to do, written
independently of it, and lemmas about that; what both share is held against writers, laws and bytes spelled out.

| file | part of the server |
|---|---|
| `Mp3Listener.dfy`, `Mp3Source.dfy`, `Icy.dfy`, `RoundTrip.dfy` | in-band metadata, inserted for listeners and stripped from sources, and a relay between the two |
| `Mp3Title.dfy` | the text of a metadata block, printed and parsed |
| `Connection.dfy`, `Chunked.dfy` | scatter buffers, and chunked transfer coding (section 4.1 of RFC 7230) |
| `Mpeg.dfy`, `Adts.dfy`, `Aligned.dfy` | the MPEG/ADTS frame aligner, frames and tags as a writer makes them, and an AAC source that is filtered and then aligned |
| `Auth.dfy` | the pool of authentication handlers |
| `Worker.dfy` | the client lists of the workers, moving clients between them, and how long a worker sleeps |
| `Fnmatch.dfy`, `Globs.dfy` | glob patterns, and what they mean when written out |
| `Md5.dfy`, `Md5Transform.dfy`, `Md5Known.dfy` | MD5 (RFC 1321), and its digest of "abc" |
| `Ebml.dfy` | the EBML splitter |
| `Flv.dfy`, `FlvMeta.dfy` | the FLV tag chain and its metadata buffer (AMF 0) |
| `Stats.dfy` | the event queue of a statistics client |
| `Relay.dfy` | starting and ending relays, and the counts kept of them |
| `Bytes.dfy`, `Wrappers.dfy` | bytes, joining, copying, options |

`dafny verify dfyconfig.toml` checks all of it.

## What turned out not to hold

Where the code does not do what it is meant to, the model follows the code, and says exactly when it does.

- The frame aligner goes round for ever on a block that is not shared when it is out of sync at something that
  may be a tag but is not seen to be one, no samples have been counted and tags are not kept: ten to fifteen bytes
  that are not the next frame will do, or a tag cut off by the end of the block (`Mpeg.StuckAt`,
  `Mpeg.Aligner.NextTurn`). From any other state every turn of its loop comes nearer to the end.
- Its escape after 100000 bytes without sync can never be taken, as the count is an unsigned short; and when 20000
  bytes or more are left of a block, skipping garbage cuts off the end of the block instead (`Mpeg.Kept`,
  `Mpeg.KeptExample`).
- In a glob pattern, a range that starts at a byte above 127 also admits everything below it where plain `char` is
  signed (`Fnmatch.RangeIsStandard`, `Fnmatch.SignedCharMeaning`).
- Over TLS the bytes of a vector are counted twice in `sent_bytes`. A vector is left altered exactly when the socket
  turns out to be closed and the skip ends inside an entry (`Connection.Bufs.Send`, `Connection.AlteredExample`).
- A source drops bytes exactly when no frame is found in a block or more than 20000 bytes of it are left over
  (`Mp3Source.Source.Validate`, `Mp3Source.Drops`).
- A block marked as the start of an EBML cluster has the whole cluster id exactly when eight bytes of its slice are
  left there (`Ebml.SyncIsCluster`, `Ebml.ShortSync`). An id is marked exactly when it is the one that ends the
  header, or the last that is seen in a later slice (`Ebml.SyncStarts`, `Ebml.FirstOfTwoUnmarked`): not when it lies
  across slices or in the last four bytes of one, nor when another follows it in its slice, nor when it is a later
  one in the slice where the header ends.
- A title comes back from a metadata block exactly when it has no `';` in it (`Mp3Title.TitleReadsBackWhen`).
- A worker waits without limit exactly when the difference to its wakeup time comes out negative in 32 bits
  (`Workers.SleepTime`), for which its clock has to be set back by more than 24 days (`Workers.ClockSetBack`).
- FLV metadata reads back exactly when it has fewer than 65536 entries (`FlvMeta.MetaBuffer.ReadsBack`).

## Model

| member | source | states |
|---|---|---|
| Icy.ReadInterleave | src/format_mp3.c:569-638 | A reader of the wire format, a byte at a time, gets from audio interleaved with metadata blocks that audio and those blocks, and ends where the writer is |
| Icy.WellFormedIs | src/format_mp3.c:1041 | A metadata block is a length byte and sixteen times so many bytes |
| Icy.ReadAppend | src/format_mp3.c:990-1089 | Reading does not depend on where the wire is cut |
| Icy.ReadMeta | src/format_mp3.c:1034-1069 | Reading any part of a metadata block from any place in it, the block is complete exactly at its end |
| Icy.MoreAudio | src/format_mp3.c:643-706 | Audio up to the interval extends the interleaving by just those bytes |
| Icy.MoreMeta | src/format_mp3.c:569-638 | A metadata block, due when an interval is full, extends it by just that block |
| Mp3Listener.Listener.constructor | src/format_mp3.c:1092-1180 | A new listener has been sent nothing |
| Mp3Listener.Listener.NextBlock | src/format_mp3.c:643-706 | At the end of a block the listener goes on to the next with nothing sent |
| Mp3Listener.MetaIsCalledFor | src/format_mp3.c:577-600 | What goes with a block is the metadata that it carries, else a block with the text of an empty title |
| Mp3Listener.Listener.SliceIs | src/format_mp3.c:643-706 | A write is of all that is left of the block up to 100000 bytes and to the place of the next metadata |
| Mp3Listener.Listener.FollowingIs | src/format_mp3.c:602-606 | With metadata goes what is left of the block up to an interval |
| Mp3Listener.Listener.SendPair | src/format_mp3.c:606-612 | Metadata and data go out as one vector, of which any front part may be taken |
| Mp3Listener.Listener.Metadata | src/format_mp3.c:579-600 | What is sent completes the metadata block that has been begun, or is a single NUL when the listener has this block already |
| Mp3Listener.Listener.SendIcyMetadata | src/format_mp3.c:569-638 | Under any short write the wire grows by a front part of the metadata and the data after it and stays an interleaving plus the front of one block; the block is remembered as sent exactly when the whole of it is, and what is remembered is what the listener is showing |
| Mp3Listener.Listener.WriteBuf | src/format_mp3.c:643-706 | Any write, in any of the three forms, sends a front part of what is due (as much as the socket takes), keeps the wire well formed and consumes exactly the bytes the position passes; and when it completes a metadata block the listener is showing what the queue block carries, or an empty title when it carries none |
| Mp3Listener.Listener.SendChunk | src/format_mp3.c:662-699 | A chunk is resumed where it stopped; data counts as consumed when its chunk is sent whole |
| Mp3Listener.Listener.SendRestOfChunk | src/format_mp3.c:664-673 | The bytes sent are those of the encoded chunk from the resume point on |
| Mp3Source.SourceReader.TakeMetadata | src/format_mp3.c:1034-1068 | As much of a metadata block as there is is taken, to where a reader of the wire would be; when it is complete the parser is given it, its last byte a NUL |
| Mp3Source.SourceReader.CutMetadata | src/format_mp3.c:1034-1069 | The metadata is removed from the middle of the buffer and nothing else is |
| Mp3Source.SourceReader.Filter | src/format_mp3.c:1006-1070 | For every cut of the wire the in-place filter leaves exactly the audio that a reader of the wire takes out, and gives the parser exactly the metadata blocks that it reads, none of them refused |
| Mp3Source.SourceReader.FinishBlock | src/format_mp3.c:1053-1068 | A complete block is parsed with its last byte a NUL, and the fields become what it says |
| Mp3Source.Replay | src/format_mp3.c:937-950 | Winding the count back over a fragment, below zero if need be, and reading it again ends in the same place as not winding back |
| Mp3Source.Source.CompleteRead | src/format_mp3.c:799-839 | Bytes that arrive are appended to the read buffer, exactly as many as fit, and no others are touched; it is full exactly when all its room is taken |
| Mp3Source.Source.FilterBlock | src/format_mp3.c:1002-1070 | A full buffer, fragment in front, is filtered as if the fragment had been there all along |
| Mp3Source.Source.Validate | src/format_mp3.c:873-955 | Bytes are given up if and only if no frames are found or more than 20000 bytes are unprocessed; then what is not whole frames is gone and the source goes on only with a block. Otherwise all bytes but those unprocessed are handed on and those are kept, as surplus only when metadata is due |
| Mp3Source.Source.DropFragment | src/format_mp3.c:881-888 | What is not whole frames is given up; the source stops exactly when there are no whole frames |
| Mp3Source.DropsWhen | src/format_mp3.c:881 | Bytes are dropped when no frame is found, or more than 20000 of more than 20000 are left |
| Mp3Source.BlockSizes | src/format_mp3.c:857-864 | A read buffer is 1400 bytes for each started 100000 of the rate, up to seventeen times, and six times when it is not known |
| Mp3Source.Source.KeepFragment | src/format_mp3.c:926-950 | The fragment becomes surplus when metadata is due, else the start of the next read with the count wound back |
| Mp3Source.Source.GetBuffer | src/format_mp3.c:990-1089 | As much is taken as the buffer has room for; when that fills it, all of it is filtered, and the audio that is not yet handed on is handed on, kept or given up as the frame parser says; otherwise nothing changes but the buffer |
| RoundTrip.Serve | src/format_mp3.c:643-706 | Any number of writes of any queue under any network: the audio consumed is the beginning of the stream; every metadata block has the listener showing what the queue block carries that the stream had come to; and when each write gets rid of a byte, each sends one until the whole queue is consumed |
| RoundTrip.WireReadsBack | src/format_mp3.c:569-706 | The wire of a listener reads back as the audio consumed and the metadata sent whole |
| RoundTrip.ChunksDecode | src/format_mp3.c:662-689 | A chunked wire decodes to the data consumed, followed by the front of one more chunk |
| RoundTrip.Drain | src/format_mp3.c:990-1089 | Any number of reads, of any sizes, with any leftovers of the frame parser: all that is given is taken while the source runs, all but less than 23800 bytes of it is filtered, all audio but at most 20000 bytes is emitted unless some is dropped, which it is only when the parser finds no frames or leaves over 20000 bytes, and all metadata has been parsed |
| RoundTrip.RelayRoundTrip | src/format_mp3.c:990-1089 | What a source emits and keeps of a listener's wire is the beginning of what the listener consumed, and all of it once the wire is read |
| RoundTrip.TitlesCross | src/format_mp3.c:1034-1069 | The parser at the other end has been given what the listener was sent of metadata, from the start and in order, and all of it once the wire is read |
| RoundTrip.TitleHeard | src/format_mp3.c:283-360 | So the fields at the other end are those that the last block was made of |
| RoundTrip.QueueTitleHeard | src/format_mp3.c:283-1069 | From end to end: the fields that a source has after any part of the wire are those that the metadata was made of which the queue block carries that the stream had come to |
| Aligned.NextBlock | src/format_mp3.c:990-1089 | With the frame aligner behind the filter, a block that comes out of an AAC source is the next so many whole frames |
| Aligned.Run | src/format_mp3.c:873-1089 | So it is over any number of reads, however wire and metadata are cut up; all that is given is taken, and what is kept back of the audio is less than a frame or ten bytes |
| Mp3Title.TextReadsBack | src/format_mp3.c:283-360 | Parsing the text of a block recovers title, URL and other items, when the fields hold no end of item and the items end |
| Mp3Title.ShownSpelled | src/format_mp3.c:490-540 | The text in letters: the title after the artist and a dash, the own URL before the one that is set, and the other items |
| Mp3Title.TitleReadsBackWhen | src/format_mp3.c:302-330 | The title comes back if and only if it has no end of item in it |
| Mp3Title.BlockReadsBack | src/format_mp3.c:409-545 | The same of the whole block, length byte, text and NULs |
| Mp3Title.LengthIs | src/format_mp3.c:425-440 | The length worked out before printing is a NUL more than what is printed, but for an artist without a title, which is counted and not printed |
| Mp3Title.Metadata.Print | src/format_mp3.c:495-512 | A bounded print cuts off what does not fit and ends in NUL |
| Mp3Title.Metadata.SetTitle | src/format_mp3.c:409-545 | A block is made exactly when the text fits 255 times 16; it holds the whole text, nothing cut off, and is 16 times its first byte plus one long |
| Mp3Title.Metadata.ParseIcy | src/format_mp3.c:283-360 | The fields become what the items of the text say; a block whose length is wrong is refused and changes nothing |
| Connection.LocatesOnce | src/connection.c:588-615 | At most one entry and offset hold a given byte of a vector |
| Connection.Bufs.Append | src/connection.c:565-585 | An entry is added at the end, the array growing if need be, and the total with it |
| Connection.Bufs.FindStart | src/connection.c:588-615 | The search finds the entry and offset of a byte, and none exactly when there is no such byte |
| Connection.Bufs.LocateStart | src/connection.c:588-615 | That entry alone is moved forward by the offset |
| Connection.Bufs.RestFrom | src/connection.c:588-614 | What is then left to gather is everything from that byte on |
| Connection.Bufs.Send | src/connection.c:617-656 | The bytes sent are the next ones after the skip; the vector is as before if and only if not both the socket was found closed and the skip ends inside an entry, and then that entry stays moved forward |
| Connection.AlteredExample | src/connection.c:617-656 | One byte of a two byte entry is such a skip |
| Connection.SendBytes | src/connection.c:457-537 | A front part of the bytes is sent and counted |
| Connection.WriteTls | src/connection.c:636-648 | Over TLS entries are written one by one until one is short; what is returned is the sum of what they took, and the bytes are a front part of the vector |
| Chunked.HexReadsBack | src/connection.c:659-665 | A size printed in hexadecimal reads back |
| Chunked.EncodeSpelled | src/connection.c:659-674 | A chunk is its size, a line end, the data, and a line end |
| Chunked.DigitsSpelled | src/connection.c:661 | A size is its digits, the high one first, without a zero in front |
| Chunked.DigitSpelled | src/connection.c:661 | in lower case |
| Chunked.FirstChunkOf | src/connection.c:659-674 | An encoded chunk is the first chunk of whatever begins with it, for any data after it |
| Chunked.DecodeBody | src/connection.c:659-674 | Any chunks decode to their data joined |
| Chunked.ChunkStart | src/connection.c:659-665 | The header of a chunk is put into the vector |
| Chunked.ChunkEnd | src/connection.c:667-674 | The end of a chunk is put into the vector, and the size of it all is returned |
| Mpeg.FrameAt | src/mpeg.c:167-197 | In a stream of ADTS frames, at a frame boundary with ten bytes there, the header matches and gives that frame's length and samples, however the data is cut off |
| Adts.LengthReads | src/mpeg.c:162-165 | The length in an ADTS header is read as a writer of headers writes it, whatever the other fields |
| Adts.SamplesRead | src/mpeg.c:183-187 | The samples of a frame are 1024 for each of its raw blocks |
| Adts.HeadersMatch | src/mpeg.c:388 | Two headers match if and only if they agree in version, layer, profile, rate and channels |
| Adts.OtherMasks | src/mpeg.c:460-550 | The other masks compare fifteen, eleven or eight bits |
| Adts.WrittenIsStream | src/mpeg.c:162-195 | Frames that are written with the same such fields are a stream, with 1024 samples for each raw block |
| Adts.FeedWritten | src/mpeg.c:851-1046 | However a stream that was written is cut up, the aligner gives back whole frames of it, in order, and counts their samples |
| Adts.NamesSpelled | src/mpeg.c:599-656 | The names of tags and containers, in letters |
| Adts.TagsSeen | src/mpeg.c:583-681 | What is taken for a tag, may be one, or is none |
| Adts.CandidatesSeen | src/mpeg.c:815-833 | What may be the start of a stream |
| Adts.ApeLenReads | src/mpeg.c:601-612 | The size of an APE tag is read low byte first, and 32 more |
| Adts.Id3SizeReads | src/mpeg.c:657-661 | The size of an ID3v2 tag is read in four times seven bits |
| Mpeg.StuckExample | src/mpeg.c:583-681 | A dozen bytes out of sync are a stuck state |
| Mpeg.StuckOnTag | src/mpeg.c:629-653 | At an ID3v1 tag out of sync the scan is stuck if and only if less than 128 bytes of it are there |
| Mpeg.KeptExample | src/mpeg.c:841-848 | With 20000 bytes left the last byte goes instead of the garbage, with one less it does not |
| Mpeg.Aligner.CheckForId3 | src/mpeg.c:583-681 | What a place is taken for, and that nothing changes when it is not seen to be a tag |
| Mpeg.Aligner.MatchSyncBits | src/mpeg.c:750-763 | A header match changes nothing; a mismatch is taken for a tag, or leaves sixteen bytes or more to search |
| Mpeg.Aligner.ProcessFrame | src/mpeg.c:167-197 | A frame is never longer than what is left; for AAC its length and samples are those of its header, and a USAC or transport stream frame must be followed by its sync byte |
| Mpeg.Aligner.FindAlignSync | src/mpeg.c:766-848 | Skips to the first place where the stream goes on, or else to the first candidate for another, and says what remains of the block, which loses its end when 20000 bytes or more are left; with nothing skipped and no stream known, the byte there is not zero or parsing is off |
| Mpeg.Aligner.InitialFrame | src/mpeg.c:699-746 | A failed detection leaves the block as it was |
| Mpeg.Aligner.InSync | src/mpeg.c:898-944 | In sync a turn goes forward, except over a tag with no length |
| Mpeg.Aligner.OutOfSync | src/mpeg.c:946-1009 | Out of sync a turn comes nearer to the end |
| Mpeg.Aligner.NextTurn | src/mpeg.c:891-1010 | A turn of the loop lowers the measure (bytes left, turns left, leading byte, tag flag) or ends the scan, from every state but a stuck one, which it leaves as it is; of the block nothing is left but what was there, in order, or zeros |
| Mpeg.Aligner.Scan | src/mpeg.c:891-1010 | The loop ends or is stuck; on a known AAC stream it stops exactly where the data has no whole next frame |
| Mpeg.Aligner.CompleteFrames | src/mpeg.c:851-1020 | With surplus and any data: not stuck when tags are kept, stuck when it starts in a stuck state; unless the block is made larger, the block and what is left over are what was given, in order, with bytes only removed or zeroed; on a known AAC stream the block is whole frames, the rest is left over, and the samples are those of the frames |
| Mpeg.Aligner.KeepLeftover | src/mpeg.c:1042-1046 | What is left over is put in front of the next data |
| Mpeg.Aligner.Feed | src/mpeg.c:851-1046 | However an AAC stream is cut up, each block is whole frames, blocks and leftover are the input, and the samples add up |
| Auth.AuthUser.PostprocessListener | src/auth.c:532-564 | A listener is handed on when authenticated or sent elsewhere when there is somewhere, else refused, and only if the backend has not taken it |
| Auth.AuthUser.AuthNewListener | src/auth.c:243-267 | With the 401 that may follow, exactly one thing happens to a new listener |
| Auth.AuthUser.Process | src/auth.c:243-346 | Every callback, with the 401 that may follow, gives its client exactly one fate, and leaves what the 401 needs |
| Auth.AuthUser.ClientFree | src/auth.c:223-237 | A client that is still there is refused, any other is not touched |
| Auth.FateIsJust | src/auth.c:243-307 | A source is handed on if and only if its password is right and refused otherwise; a listener exactly when it is there, was not answered, and is authenticated or has somewhere else to go; nobody else is handed on |
| Auth.HandlerCount | src/auth.c:791-796 | The number of handlers is 1 to 100, through a short: 3 when less is asked for, 100 when more |
| Auth.Auth.constructor | src/auth.c:846-863 | A new pool has one reference, no threads and an empty queue |
| Auth.Auth.QueueClient | src/auth.c:134-183 | Queueing, with the search for a free handler, the start of a thread and the undoing when it fails, is the model's step; the counts are right afterwards |
| Auth.Auth.StartHandler | src/auth.c:150-176 | A free handler is found whenever the reference count says that there is one, and the first is used |
| Auth.Auth.TakeClient | src/auth.c:362-389 | A handler takes the first client, or ends and lets go of the pool in the same hold of the lock |
| Auth.Auth.ServeClient | src/auth.c:375-383 | A handler's client meets its fate |
| Auth.Auth.Release | src/auth.c:189-219 | The last reference frees the pool, and no other |
| Auth.Auth.ConfigRelease | src/cfgfile.c:389-393 | The mount lets go of the pool |
| Auth.Auth.RunSteps | src/auth.c:134-392 | Any interleaving of the code's steps is a run of the model |
| Auth.NextKeeps | src/auth.c:134-392 | Every step keeps: a queued client has a live handler, first come first served, every client in one place, freed exactly when unreferenced |
| Auth.EveryRun | src/auth.c:134-392 | Over every run: never more threads than handlers, none stranded, first come first served, each client in exactly one place, freed at most once and exactly when neither mount nor thread refers to the pool |
| Auth.StepGives | src/auth.c:134-183 | A client is accepted unless a handler is free and cannot be started, and then it is refused; a step gives at most one client its fate |
| Auth.FatesAreJust | src/auth.c:134-346 | Over any run each fate was given by a step of it, and is what the backend said then |
| Auth.OnlyTheJustGoOn | src/auth.c:243-307 | Over any run of a new pool nobody is handed on but sources with the right password and listeners with it or with somewhere else to go |
| Auth.HandlersProgress | src/auth.c:360-390 | Every step of a handler lessens the work left |
| Auth.NoneStranded | src/auth.c:150-183 | While there is work a handler can move |
| Auth.HandlersDrain | src/auth.c:360-390 | From any state handlers alone can finish all the work, in so many steps |
| Auth.AtRest | src/auth.c:189-237 | When they have, every client offered has had exactly one fate, those accepted in the order they came, and the pool is freed if the mount has let go |
| Workers.World.constructor | src/client.c:829-837 | Empty lists to begin with |
| Workers.World.AddClient | src/client.c:511-563 | A client goes to the end of a pending list, all other lists untouched; every list stays a chain of distinct clients ending at its tail, with the right count |
| Workers.World.ChangeWorker | src/client.c:521-533 | A client moves to a worker that is running, and otherwise nothing changes |
| Workers.World.Here | src/client.c:720-730 | The client that a pass is at is this worker's, so the check never aborts |
| Workers.World.Stay | src/client.c:777-781 | A client that stays is passed over, and the wakeup time is no later than it wants |
| Workers.World.Leave | src/client.c:754-768 | A client that goes is on no list, and the worker keeps only the link before it and the client after |
| Workers.World.Unlink | src/client.c:766-774 | It is unlinked without being looked at, wherever it is by then, and the last link is set right |
| Workers.World.Visit | src/client.c:728-784 | One turn of a pass: run or not as the schedule says, stay or leave, all lists kept |
| Workers.World.TakePending | src/client.c:598-621 | Pending clients follow the active ones, and only they are passed over next; without any, all are |
| Workers.World.Pass | src/client.c:726-784 | After a pass, the clients it began at that stay are on the list in their order, each other one is where its outcome sends it, in the order they went, and only if it was due to be run; no other client is touched, so none is lost |
| Workers.WhoIsRun | src/client.c:736-744 | While the worker runs a client that is due is run, unless nine thousand have been and it cannot be woken; one that is not only when it is woken; and all once the worker is stopped |
| Workers.World.PassByClock | src/client.c:726-784 | In a pass each of up to 9000 clients that is due is run and things are as its processing says; what is not due, woken or stopped is as it was |
| Workers.World.Round | src/client.c:626-784 | So it is for a wait and the pass after it, for all that is due within 12 ms of the clock then |
| Workers.NextPlace | src/client.c:766-784 | The list and the place in it after a turn, whether the client goes or stays |
| Workers.World.RunSteps | src/client.c:511-784 | Any steps of any threads in any order are a run of the model, which has no links, with all lists kept as they should be |
| Workers.NoneLost | src/client.c:511-784 | Over any run, a client that has been anywhere, or has arrived, is on some list at the end, or its processing has said that it is finished |
| Workers.SleepTime | src/client.c:626-638 | A wait is at most a minute, and ends at the wakeup time or within 2 ms, if and only if the difference to that time does not come out negative in 32 bits; otherwise it has no limit |
| Workers.ClockSetBack | src/client.c:626-638 | That takes a clock set back by more than 24 days, and the least such setting does it |
| Workers.World.Wait | src/client.c:626-663 | No active client on the list wants to run before the worker wakes, but within 2 ms |
| Fnmatch.SkipClosesLikeScan | src/fnmatch_loop.c:857-925 | Where a bracket closes does not depend on the character: skipping the rest ends where scanning on would |
| Fnmatch.StarDenotes | src/fnmatch_loop.c:82-97 | What follows a star has to match some tail |
| Fnmatch.StarAfterStar | src/fnmatch_loop.c:97-130 | A second star changes nothing |
| Fnmatch.QuestionAfterStar | src/fnmatch_loop.c:110-128 | A question mark after a star takes one character |
| Fnmatch.LookAhead | src/fnmatch_loop.c:184-199 | After a star, only tails that begin with the next literal can match |
| Fnmatch.Bracket | src/fnmatch_loop.c:201-929 | A bracket expression is hit exactly when the character is in its set, and is passed whole |
| Fnmatch.Fct | src/fnmatch_loop.c:28-973 | The matcher returns 0 if and only if the pattern denotes the subject |
| Fnmatch.AfterStar | src/fnmatch_loop.c:82-199 | So does its star case, for some tail |
| Fnmatch.Fnmatch | src/fnmatch.c:289-356 | A whole pattern against a whole subject |
| Globs.ReadsBack | src/fnmatch_loop.c:43-929 | A pattern that has been written out, with backslashes where they are needed, reads as what was meant |
| Globs.Together | src/fnmatch_loop.c:43-929 | Elements one after another take the subject apart |
| Globs.Alone | src/fnmatch_loop.c:56-130 | A star means anything, a question mark one character, a character itself |
| Globs.Bracketed | src/fnmatch_loop.c:201-929 | A bracket means one character that it lists or, negated, one that it does not |
| Globs.MatchWritten | src/fnmatch_loop.c:28-973 | The matcher on a pattern that has been written returns 0 if and only if the subject is meant |
| Globs.NegationSpelled | src/fnmatch_loop.c:221-223 | What negates a bracket |
| Globs.SubBracketsSpelled | src/fnmatch_loop.c:239-418 | Exactly the patterns with `[:`, `[=` or `[.` in a bracket are left out |
| Fnmatch.RangeIsStandard | src/fnmatch_loop.c:841-842 | An item has its plain meaning if and only if `char` is not signed or it is not a range from 128 up; such a range has everything up to its end |
| Fnmatch.SignedCharMeaning | src/fnmatch_loop.c:841-842 | A pattern keeps its standard meaning on every subject if and only if every element does or one can match nothing either way |
| Fnmatch.LowRangesKeepMeaning | src/fnmatch_loop.c:841-842 | It does if all ranges start below 128 |
| Fnmatch.SignedRangeExample | src/fnmatch_loop.c:205 | A range of accented letters does not |
| Md5Transform.ShortIsMix | src/md5.c:185-189 | The shortened round functions are those of the standard |
| Md5Transform.StepIsOp | src/md5.c:191-192 | A step with its rotation of registers is an operation of the standard |
| Md5Transform.AllRounds | src/md5.c:199-280 | The 64 unrolled steps are the compression function of section 3.4 of RFC 1321 |
| Md5Transform.Transform | src/md5.c:199-280 | It is added into the registers |
| Md5.CarryIsDetected | src/md5.c:89-93 | The carry test on the low word is right |
| Md5.CarryKeepsCount | src/md5.c:89-96 | The two words go on counting bits modulo 2 to the 64 |
| Md5.HashedAppend | src/md5.c:84-134 | A block more is one compression more |
| Md5.FinalBlock | src/md5.c:137-181 | Padding in one block or two, with the count, completes the padded message |
| Md5.Md5Context.constructor | src/md5.c:69-81 | An empty message |
| Md5.Md5Context.Update | src/md5.c:84-134 | The context stands for the longer message, however much was buffered |
| Md5.Md5Context.Final | src/md5.c:137-181 | The digest of all that was fed, and nothing left behind |
| Md5.DigestOfPieces | src/md5.c:84-181 | The digest does not depend on how a message is cut up |
| Md5Known.DigestOfAbc | src/md5.c:69-280 | The digest of "abc" is the one in section A.5 of RFC 1321 |
| Ebml.CutsConserve | src/format_ebml.c:440-495 | Blocks and the four bytes kept back are the stream, and no block is empty |
| Ebml.IdSpelled | src/format_ebml.c:323 | The id of a cluster, byte by byte |
| Ebml.SyncIsCluster | src/format_ebml.c:413-430 | A block marked sync is where a cluster starts, and is the rest of its slice but for four bytes; it has the whole id if and only if eight bytes of the slice are left |
| Ebml.SyncStarts | src/format_ebml.c:462-493 | Sync blocks begin at the end of the header and at the last id of every later slice, and nowhere else |
| Ebml.ShortSync | src/format_ebml.c:413-430 | A slice of an id and one byte makes a sync block of one byte |
| Ebml.FirstOfTwoUnmarked | src/format_ebml.c:462-493 | Of two ids in a slice only the second is marked |
| Ebml.Splitter.WroteHeader | src/format_ebml.c:440-484 | Bytes go to the header until an id is seen after its first byte; too many are refused |
| Ebml.Splitter.WroteBody | src/format_ebml.c:462-493 | A slice makes the blocks that the last id in it says |
| Ebml.Splitter.Read | src/format_ebml.c:355-411 | What is read is taken off the front of the buffer, or is the header |
| Ebml.Splitter.LastWasSync | src/format_ebml.c:413-430 | The block after one that ends at a cluster is the sync block |
| Ebml.Splitter.TakeBlock | src/format_ebml.c:185-208 | The next block handed on is the next that the slices make, marked as it should be |
| Ebml.Splitter.GetBuffer | src/format_ebml.c:176-230 | For any reads, all that they give is taken in; blocks come out in order, one a call, until the reads end with only four bytes kept back, or the header is too large, which it is only when it goes over 131072 bytes |
| Ebml.Splitter.Conserved | src/format_ebml.c:176-230 | Header, blocks and buffer are all that the reads gave, the buffer at most a slice and four bytes |
| Ebml.Split | src/format_ebml.c:176-230 | A whole run, for any reads: all that they give is the header, the blocks handed on and four bytes; the header ends at the first id of the first read that has one, but for one at the very start of the stream, and the blocks are those that the reads after it make |
| Flv.TagsReadBack | src/flv.c:51-79 | A reader that insists on each PreviousTagSize reads what is written as the tags that were meant |
| Flv.HeaderSpelled | src/flv.c:51-79 | The layout of a tag header, byte by byte |
| Flv.SizeIs | src/flv.c:48-79 | The size that a tag is said to have is that of its header and data |
| Flv.BodySnoc | src/flv.c:51-79 | A tag more is its header, with the size of the tag before it, and its data |
| Flv.Packer.Hdr | src/flv.c:51-79 | The header bytes, written one by one, are a tag header with the size of the tag before |
| Flv.MakeMetadata | src/flv.c:238-282 | Metadata made when a block has none is as many of the entries as there is room for, reads back as those, and is never longer than the room for it |
| Flv.Packer.WriteMetadata | src/flv.c:230-317 | A metadata tag joins the chain, and there is always room for one made here |
| Flv.Packer.MpxHdr | src/flv.c:84-121 | A frame goes out whole, after metadata that is new, unless the buffer is full |
| Flv.Packer.AacHdr | src/flv.c:127-158 | So does an AAC frame, without its ADTS header |
| Flv.Packer.FirstHdr | src/flv.c:182-205 | The first goes after the codec configuration and the metadata, in that order |
| Flv.Packer.Send | src/flv.c:208-227 | Bytes go out in order; the buffer is free again exactly when all are sent |
| Flv.Packer.Readable | src/flv.c:51-317 | All that has gone out and will go out reads as the tags packed, from a first size of 0 |
| FlvMeta.MetaReadsBack | src/flv.c:413-508 | What is in a finished buffer reads as its entries, if and only if the count of them fits |
| FlvMeta.HeadSpelled | src/flv.c:413-448 | The beginning and the end of the metadata, byte by byte |
| FlvMeta.EntrySpelled | src/flv.c:451-508 | An entry, byte by byte |
| FlvMeta.ReadsEntries | src/flv.c:451-508 | Entries read back one by one, before whatever follows |
| FlvMeta.MetaBuffer.constructor | src/flv.c:413-427 | A new buffer has no entries |
| FlvMeta.MetaBuffer.Increase | src/flv.c:430-448 | There is room for an entry and the end, and the count goes up, or the end is written |
| FlvMeta.MetaBuffer.Append | src/flv.c:451-508 | An entry is added exactly when it fits, else the buffer ends |
| FlvMeta.MetaBuffer.ReadsBack | src/flv.c:413-508 | A finished buffer reads as its entries if and only if they are fewer than 65536 |
| Stats.Append | src/stats.c:815-829 | A line goes in exactly when it fits with a NUL |
| Stats.StatsClient.AddLine | src/stats.c:871-910 | A line is accepted whole exactly when the client is on a worker, the queue is not too long and the line fits a block; blocks hold whole lines, the length is their sum and the recent block is the last |
| Stats.StatsClient.AddNode | src/stats.c:849-868 | A block is hung after the last |
| Stats.StatsClient.SendBlock | src/stats.c:709-735 | Bytes go out from where sending stopped; a block that is sent goes off the queue |
| Stats.StatsClient.Send | src/stats.c:682-749 | Sending goes on with what has been accepted, in order, nothing added or lost, until the queue is empty, twelve blocks (fourteen for a connection) or over 50000 bytes have gone, or a write is short; a client over 2000000 bytes for long is given up |
| Stats.StatsClient.Prepend | src/stats.c:1098-1107 | The snapshot goes in front of what has come in meanwhile |
| Stats.StatsClient.WirePrefix | src/stats.c:682-749 | What has been sent is always the beginning of snapshot and lines accepted |
| Stats.Snapshot.Add | src/stats.c:832-846 | A line goes into this block or the next, or is left out when no block could hold it |
| Stats.BuildSnapshot | src/stats.c:985-1096 | The snapshot is all the lines that fit, in order, whole |
| Stats.FittingIs | src/stats.c:832-846 | The lines of a snapshot are those shorter than 8192 bytes |
| Stats.RunSteps | src/stats.c:682-1107 | Events, registration and sends in any order: what has been sent is the beginning of the snapshot of the first registration and then the events taken, in the order they came; an event is taken only if it fits a block and the client has not left its worker, and all those are taken while at most 6000000 bytes have been accepted |
| Relay.Relay.OpenConnection | src/slave.c:406-531 | A connection is open exactly when some request within ten redirects is answered with a stream; in all cases there is a connection time at the end |
| Relay.Relay.OpenRelay | src/slave.c:537-563 | The host in use is one that was not to be skipped and whose stream is usable, the first so in turn, those that fail on the way being marked |
| Relay.Slave.StartUp | src/slave.c:1656-1752 | A thread is begun only when fewer than four are connecting |
| Relay.Slave.Begin | src/slave.c:575-580 | The count is raised, and there is a connection time |
| Relay.Slave.Connect | src/slave.c:583-636 | However connecting ends, there is a connection time and one thread less |
| Relay.Slave.Read | src/slave.c:1437-1588 | When a stream is over the count drops once if there is a connection time, which is then cleared, on every path |
| Relay.Slave.Initialise | src/slave.c:1606-1653 | Nothing is counted before a relay is started |
| Relay.Slave.constructor | src/slave.c:224-241 | No relay is counted at first |
| Relay.Slave.RunSteps | src/slave.c:406-1752 | Any steps of any relays and threads in any order are a run of the model, which says what each does to phase, connection time, hosts and counts; with a source counted for each connection time and at most four threads at every moment |
| Relay.Slave.Take | src/slave.c:568-1588 | Each step of the code is the step of the model |
| Relay.StepCounts | src/slave.c:568-1588 | A step leaves all other relays alone; sources change by starts less drops, and threads by where the relay is before and after |
| Relay.Looked | src/slave.c:1399-1433 | A relay that is gone from the configuration is to be cleaned up and stops |
| Relay.Begins4 | src/slave.c:1656-1752 | A relay begins to connect exactly when it is wanted, not cleaned up, its server up, and fewer than four others connect |
| Relay.ReadsThen | src/slave.c:1437-1588 | A stream that runs is left alone; one that is over has no connection time, and starts again unless it is cleaned up |
| Relay.JudgedSo | src/slave.c:1465-1495 | A server given up soon after it was up is skipped, any other gives all another chance |
| Relay.Slave.AtRest | src/slave.c:1437-1588 | When no relay is connecting or has a stream, all starts have been matched, and only other sources count |

## Left out

- Sockets, TLS, poll, files, libcurl, libxml, libogg and the codecs other than those above: what they return is an input.
- Mp3Listener.Listener.WriteBuf: does not model `queue_pos`, `schedule_ms` and the counters of a listener, nor blocks flagged for a fixed send size.
- Mp3Source.Source.Validate: takes what the aligner leaves unprocessed as an input and its frames as the bytes in front; `Aligned.dfy` joins it to the aligner for AAC. The bytes that are cut out of other streams are in `Mpeg.dfy`, and blocks that it asks to be expanded are not modelled.
- Mp3Source.SourceReader.Filter: setting the title again after 20000 bytes comes between reads and is `Mp3Title.Metadata.SetTitle`.
- Mp3Title.Metadata.SetTitle: does not model character sets, statistics, the FLV and iceblock forms of the same metadata.
- Connection.Bufs.Send: does not model the widths of `short` counts and `int` totals.
- Mpeg.Aligner.CompleteFrames: is for blocks that are not shared; shared ones do not advance after a resync. What the checks for MPEG, TS and USAC streams find, and MPEG frame lengths, are inputs; stream type, bitrate and channel fields are not modelled, nor frame callbacks. What a block made larger has in its new part is not stated.
- Mpeg.Aligner.FindAlignSync: `match_syncbits` past the start comes down to the masked header, as the byte there is the marker and no tag begins with it.
- Auth.Auth.QueueClient: the source's `tailp` into the queue is the end of a sequence. Backends answer in one step; the lock around all handlers at shutdown is not modelled.
- Workers.World.Visit: `schedule_ms` and CLIENT_ACTIVE of a listed client change only when it is run; those set from outside come with a wakeup. The wakeup pipe is not modelled.
- `worker_relocate_clients`, balancing and stopping of workers: the lists are left in a state of their own there.
- Fnmatch.Fct: the flags other than FNM_NOESCAPE, multibyte and collation are not modelled, and neither are `[:`, `[=` and `[.` inside brackets, where skipping and scanning differ.
- Ebml.Splitter.WroteHeader: is called for reads that give something; writing nothing changes nothing.
- Ebml.Splitter.Read: is only called for all that there is, as the source does.
- Flv.Packer.Send: does not model packing again when a block was copied in the middle of a send. Times in milliseconds are inputs.
- Flv.MakeMetadata: stops at the first entry that does not fit, where the source goes on with those after it.
- FlvMeta.MetaBuffer.Append: does not model appending after the buffer has ended.
- Stats.StatsClient.Send: schedule times are not modelled. The source tests for connection blocks but makes none.
- Stats.BuildSnapshot: takes the lines, which come from the statistics trees, as an input; they are never empty.
- Relay.Slave.StartUp: does not model a failure of `thread_create`, which the source does not check, nor moving to another worker. Clocks do not read 0.
- Starvation of clients by endless pending arrivals, admin commands, XSLT, configuration, file serving and the other stream formats: plumbing, or not promised.
