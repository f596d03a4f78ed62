# Verified models of the network-lab programs

This project models the algorithmic kernels of a collection of network-lab programs in Dafny and
proves what they are for. `dafny verify dfyconfig.toml` checks everything.

- **Hamming code** (`Bits`, `HammingCode`, `HammingGen`, `HammingCheck`). The generator places a
  message at the positions that are not powers of two and fills the others with parity; the
  checker reads the parities as a position and flips it. They compute the number of parity bits
  with different loops. Proved: they always agree on it, every single error in a generated word is
  located and repaired, every double error is noticed but never repaired, and the encoding is
  unique.
- **Expression evaluator** (`Expressions`, `Evaluator`, `EvaluatorProofs`, `Derivations`). A
  one-pass evaluator with a value stack and an operator stack, on 32-bit C arithmetic. Proved: on
  every string of the expression grammar it computes the recursive meaning of the tree, applying
  exactly the operators of the tree, and its stacks stay disciplined. The strings of the grammar
  are exactly those in which operands and operators alternate and parentheses balance.
- **Internet checksum** (`Checksum`, `ChecksumProofs`). Three C implementations against RFC 1071,
  on a little-endian host: exactly when each is right, that they agree up to 65537 words, and the
  algebra of sections 1 and 2 of the RFC.
- **Hand-off protocol** (`Descriptors`, `Service`, `Iss`, `Tracer`, `Handoff`, `HandoffInvariant`,
  `HandoffTheorems`, `HandoffHistory`, `HandoffRouting`, `HandoffRounds`, `HandoffRuns`). Services
  accept one client themselves; a super server then accepts on their listening sockets and passes
  the clients on; a tracer announces ports. Each process is a class with its `select` loop; the
  system interleaves the parts of their rounds and signal deliveries over FIFO channels and
  per-process descriptor tables. Proved for every run, whatever ports services have and whenever
  they are announced: what each `select` watches, delivery in order, every client in exactly one
  place, exactly when a socket comes from its owner and a client goes to it, and that every round
  of the super server in the system is a round of its process. Proved for runs in which services
  have different ports and register before theirs are read: correct routing, one signal for each
  service, and exactly when the descriptor taken over is the listening socket.
- **Small kernels** (`HexDump`, `NumberText`, `RpcSort`). The packet dump and its reading back,
  decimal conversion with in-place reversal, and a sort that swaps by adding and subtracting.
  `Basics` holds the types that several modules share.

## Where the programs fall short

Each of these is proved with its exact condition.

- The Hamming checker does not protect the last position of a word whose length is a power of two
  (`ProtectedPositions`), and for every power of two there is a word in which an error there goes
  unnoticed (`UnprotectedWords`); generated words never have such a length (`LengthAgreement`).
- After two errors the checker flips a third position, or writes behind the word if and only if the
  exclusive-or of the two positions exceeds its length (`DoubleErrorNotRepaired`).
- `chksum` equals the RFC 1071 checksum if and only if the sum of the words is below 2^32
  (`ChksumExact`), which all-ones buffers from 65538 words on exceed (`ChksumTooLong`). `csum`
  equals it unless its second fold carries (`CsumExact`), which takes at least 65539 words
  (`CsumShort`, `CsumTooLong`).
- `csum` of udp_sender.c reads one byte too far on an odd count, and is right if and only if that
  byte is zero and, again, the second fold does not carry (`CsumByBytesOdd`).
- The super server looks its port table up when a port is read, and again for every client, and a
  port nobody registered reads as slot 0. What is taken over comes from an owner of the port if and
  only if one had registered when the port was read (`TakenFromOwnerIffRegistered`). A client goes
  to the service on whose socket it came in if and only if the table still names the same service;
  with different ports, unless the owner has registered in between (`ForwardedToOwnerIff`). A run
  that delivers a client to the wrong service is given (`EarlyReadMisdelivers`), and one in which a
  port is read before anybody has registered, so that the super server signals itself
  (`EarlyReadEnds`).
- A service registers before it creates its listening socket. If its signal handler runs in
  between, it sends descriptor 0, and the super server takes that over for good. In runs that are
  otherwise well timed, what is taken over is the listening socket if and only if the one run of the
  handler came after the service started to listen (`TakesListenerIffListening`); otherwise the
  service never gets a client from the super server (`EarlySignalStarves`). A run in which this
  happens is given (`EarlySignalTakesInput`), and one that delivers a client (`ClientDelivered`).
- `atoi` undoes `itoa` if and only if the number is not negative (`AtoiOfItoa`).
- Division in the remote procedure falls through into the sort (`MathProc`).

## Model

| member | source | states |
|---|---|---|
| HammingGen.FindLength | Hamming_code_RPC_Assignment_19/Hamming_Code/hamming_code_gen.cpp:13-24 | the code length is the message length plus the least r with 2^r >= length + r + 1 |
| HammingGen.GenerateUnprocessedCode | Hamming_code_RPC_Assignment_19/Hamming_Code/hamming_code_gen.cpp:26-40 | the message, in order and without reading past it, stands at the positions that are not powers of two; the others hold '*' |
| HammingGen.FindPositions | Hamming_code_RPC_Assignment_19/Hamming_Code/hamming_code_gen.cpp:42-52 | exactly the positions whose 1-based number meets the mask, ascending |
| HammingGen.GetParityBit | Hamming_code_RPC_Assignment_19/Hamming_Code/hamming_code_gen.cpp:54-65 | the number of ones at the given positions, modulo 2 |
| HammingGen.GroupParity | Hamming_code_RPC_Assignment_19/Hamming_Code/hamming_code_gen.cpp:42-65 | counting the ones of the group of 2^i gives the parity of all positions that have bit i |
| HammingGen.ProcessString | Hamming_code_RPC_Assignment_19/Hamming_Code/hamming_code_gen.cpp:67-86 | after the fill every group has the parity of what stood at its own position before, with the data and all other positions untouched |
| HammingGen.Generate | Hamming_code_RPC_Assignment_19/Hamming_Code/hamming_code_gen.cpp:87-105 | the printed word is an encoding of the input: its data is the message, its parity positions are binary, all groups are even |
| HammingCode.CodeCounts | Hamming_code_RPC_Assignment_19/Hamming_Code/hamming_code_gen.cpp:67-86 | an even number of the characters of a code word at the positions of each group are '1', and each parity position holds '0' or '1' |
| HammingCode.MessageAt | Hamming_code_RPC_Assignment_19/Hamming_Code/hamming_code_gen.cpp:26-40 | between the positions 2^j and 2^(j+1), character k of a code word is character k - 1 - j of the message |
| HammingCode.LengthAgreement | Hamming_code_RPC_Assignment_19/Hamming_Code/hamming_code_gen.cpp:13-24 | a generated length lies strictly between 2^(r-1) and 2^r, is no power of two, holds exactly the message, and makes the checker find the same r, at most log2(m) + 2 |
| HammingCode.EncodingUnique | Hamming_code_RPC_Assignment_19/Hamming_Code/hamming_code_gen.cpp:67-86 | at most one word encodes a message, whatever the order of filling |
| HammingCode.ParityOnPowers | Hamming_code_RPC_Assignment_19/Hamming_Code/hamming_code_gen.cpp:67-86 | a parity group contains no parity position but its own |
| HammingCode.ParityLinear | Hamming_code_RPC_Assignment_19/Hamming_Code/hamming_code_check.cpp:42-65 | every parity is linear under bitwise exclusive-or of words |
| HammingCode.SyndromeLinear | Hamming_code_RPC_Assignment_19/Hamming_Code/hamming_code_check.cpp:67-87 | the change position is linear under bitwise exclusive-or of words |
| HammingCode.SyndromeOfChange | Hamming_code_RPC_Assignment_19/Hamming_Code/hamming_code_check.cpp:67-87 | changing the bit at p changes the result by exclusive-or with p modulo 2^r |
| Bits.LowBitsIsRemainder | Hamming_code_RPC_Assignment_19/Hamming_Code/hamming_code_check.cpp:81-82 | the sum of the powers of two of the lowest r bits is the remainder modulo 2^r |
| HammingCode.ZeroSyndrome | Hamming_code_RPC_Assignment_19/Hamming_Code/hamming_code_check.cpp:67-87 | the result is zero if and only if all r parity groups are even |
| HammingCode.SyndromeCounts | Hamming_code_RPC_Assignment_19/Hamming_Code/hamming_code_check.cpp:42-87 | bit j of the change position is the parity of the number of '1' characters at the positions whose number has bit j |
| HammingCheck.FindRedunLen | Hamming_code_RPC_Assignment_19/Hamming_Code/hamming_code_check.cpp:13-24 | the least r with 2^r >= length |
| HammingCheck.Correction | Hamming_code_RPC_Assignment_19/Hamming_Code/hamming_code_check.cpp:67-87 | the position built bit by bit is the exclusive-or of all positions holding a one, modulo 2^r |
| HammingCheck.Check | Hamming_code_RPC_Assignment_19/Hamming_Code/hamming_code_check.cpp:88-113 | the named position, and no other, becomes '0' if it held '1' and '1' otherwise; a position outside the word is reported instead of written |
| HammingCheck.NoErrorAccepted | Hamming_code_RPC_Assignment_19/Hamming_Code/hamming_code_check.cpp:94-103 | a generated word is reported clean and left alone |
| HammingCheck.SingleErrorCorrected | Hamming_code_RPC_Assignment_19/Hamming_Code/hamming_code_check.cpp:94-110 | for every message and every position, one error in the generated word is located exactly, and repaired if and only if the position held a binary digit |
| HammingCheck.DoubleErrorDetected | Hamming_code_RPC_Assignment_19/Hamming_Code/hamming_code_check.cpp:67-87 | two errors at p and q give p xor q, which is not zero: minimum distance three |
| HammingCheck.DoubleErrorNotRepaired | Hamming_code_RPC_Assignment_19/Hamming_Code/hamming_code_check.cpp:104-110 | after two errors the position named is neither of them, lies inside the word if and only if p xor q does, and flipping it never restores the word |
| HammingCheck.ProtectedPositions | Hamming_code_RPC_Assignment_19/Hamming_Code/hamming_code_check.cpp:13-24 | for clean words of any length a single error is located unless it hits the last position of a power-of-two length, and then goes unnoticed |
| HammingCheck.UnprotectedWords | Hamming_code_RPC_Assignment_19/Hamming_Code/hamming_code_check.cpp:13-24 | for every power of two the all-zero word of that length is clean and stays clean when its last position is damaged |
| HammingCheck.Transmit | Hamming_code_RPC_Assignment_19/Hamming_Code/hamming_code_check.cpp:88-113 | generator, at most one damaged bit and checker end to end: the word and its message are recovered |
| Evaluator.ApplyOp | End_lab_exam/ques_1/math.cpp:13-26 | the sum, difference, product or truncated quotient if it is a 32-bit integer, or the reason why there is no result |
| Expressions.TruncDivIsC | End_lab_exam/ques_1/math.cpp:23 | division truncates toward zero: the remainder is smaller than the divisor and has the sign of the dividend |
| Evaluator.ReadNumber | End_lab_exam/ques_1/math.cpp:44-57 | the digit loop reads the decimal value of the longest run of digits |
| Evaluator.ReduceLoop | End_lab_exam/ques_1/math.cpp:61-73 | pops and applies operators as long as the guard of the loop holds |
| Evaluator.Round | End_lab_exam/ques_1/math.cpp:35-95 | one round of the scanning loop on the two stacks |
| Evaluator.Evaluate | End_lab_exam/ques_1/math.cpp:28-111 | for any string at all, the outcome of scanning and final reduction, including every undefined case |
| EvaluatorProofs.EvaluatesExpressions | End_lab_exam/ques_1/math.cpp:28-111 | on every string of the grammar the final state is the recursive left-associative value alone, the operator applications are those of the tree, and the run fails if and only if a node of the tree overflows or divides by zero |
| EvaluatorProofs.ReturnsValue | End_lab_exam/ques_1/math.cpp:28-111 | if every number and intermediate value of the tree lies between -2147483648 and 2147483647 and no divisor is zero, the program returns the value of the expression, and otherwise the arithmetic is undefined |
| EvaluatorProofs.AnswerOfDigits | End_lab_exam/ques_1/math.cpp:44-57 | a string of the digits 0 to 9 is answered with its decimal value, if that is at most 2147483647 |
| EvaluatorProofs.AnswerOfSum | End_lab_exam/ques_1/math.cpp:13-26 | the text of an expression, blanks, + or - and the text of a term are answered with the sum or difference of their answers, if it fits |
| EvaluatorProofs.AnswerOfProduct | End_lab_exam/ques_1/math.cpp:13-26 | the text of a term, blanks, * and the text of a factor are answered with the product of their answers, if it fits |
| EvaluatorProofs.AnswerOfQuotient | End_lab_exam/ques_1/math.cpp:13-26 | the same for /: the answer leaves a remainder smaller than the divisor with the sign of the dividend; there is none for divisor 0 and for -2147483648 / -1 |
| EvaluatorProofs.AnswerOfParentheses | End_lab_exam/ques_1/math.cpp:39-76 | parentheses and blanks around an expression do not change its answer |
| EvaluatorProofs.AnswerOfNothing | End_lab_exam/ques_1/math.cpp:28-111 | blank input reads from an empty stack |
| EvaluatorProofs.AnswerOfExtraClose | End_lab_exam/ques_1/math.cpp:59-76 | a closing parenthesis too many is ignored |
| EvaluatorProofs.AnswerOfExtraOpen | End_lab_exam/ques_1/math.cpp:39-42 | an opening parenthesis too many reads from an empty stack |
| EvaluatorProofs.AnswerOfMissingOperand | End_lab_exam/ques_1/math.cpp:78-94 | a + or - with nothing behind it reads from an empty stack |
| EvaluatorProofs.AnswerOfNeighbours | End_lab_exam/ques_1/math.cpp:44-110 | of two factors with only a blank between them the last one is answered |
| EvaluatorProofs.AnswerOfForeignOperator | End_lab_exam/ques_1/math.cpp:78-94 | any other character between two expressions is taken for an operator and has no result |
| Expressions.MeaningIsValue | End_lab_exam/ques_1/math.cpp:13-26 | checked C arithmetic over a tree succeeds exactly when all intermediate values fit, and then agrees with plain arithmetic |
| Expressions.DecimalIsValue | End_lab_exam/ques_1/math.cpp:46-53 | accumulating digits from the left gives their positional value, unless it exceeds an int |
| EvaluatorProofs.ExprMeaning | End_lab_exam/ques_1/math.cpp:78-94 | any reduction that forces + and - turns the pending operators of an expression into its value |
| EvaluatorProofs.FactorMeaning | End_lab_exam/ques_1/math.cpp:59-76 | a number or a parenthesised expression leaves exactly its value, with nothing pending |
| EvaluatorProofs.StackDiscipline | End_lab_exam/ques_1/math.cpp:35-95 | no pop meets an empty stack, precedences climb above every '(', and depth d has at most 3d + 2 operators and 2d + 3 values |
| Derivations.RecognisesGrammar | End_lab_exam/ques_1/math.cpp:35-95 | the strings that alternate operands and operators and balance parentheses are exactly the renderings of expression trees, so the theorems above cover all of them |
| Derivations.WellFormedEvaluates | End_lab_exam/ques_1/math.cpp:28-111 | on each of those strings the evaluator ends with exactly one value and no operator, unless the arithmetic fails |
| Checksum.Chksum | RAW_Sockets_Assignment_20/IP_Header_printing/sender.c:27-41 | the folded complement of the word sum modulo 2^32, an odd tail byte counted alone |
| Checksum.CsumByBytes | RAW_Sockets_Assignment_20/packet_sniffing/udp_sender.c:59-81 | the folded complement of the exact word sum, where an odd count takes in one more byte |
| Checksum.CsumByWords | CN-Notes-2021/raw sockets/rawsender.c:13-22 | the folded complement of the exact word sum, which an int count cannot overflow |
| ChecksumProofs.SumOfBytes | RAW_Sockets_Assignment_20/IP_Header_printing/sender.c:33-36 | words are read least significant byte first, and an odd byte stands for itself |
| ChecksumProofs.SumResidue | RAW_Sockets_Assignment_20/IP_Header_printing/sender.c:33-36 | end-around-carry addition of the words is their plain sum modulo 0xffff, with zero only for zero |
| ChecksumProofs.ChecksumIs | RAW_Sockets_Assignment_20/IP_Header_printing/sender.c:37-40 | the checksum is the one number from 0 to 65535 that brings the plain sum of the words to a multiple of 65535, where 65535 stands for words that are all zero |
| ChecksumProofs.FoldExact | RAW_Sockets_Assignment_20/packet_sniffing/udp_sender.c:76-77 | two folds reduce a sum to its residue, less one exactly if the second fold carries |
| ChecksumProofs.ChksumExact | RAW_Sockets_Assignment_20/IP_Header_printing/sender.c:27-41 | for every int length chksum is the RFC 1071 checksum if and only if the sum is below 2^32 |
| ChecksumProofs.ChksumIs | RAW_Sockets_Assignment_20/IP_Header_printing/sender.c:27-41 | in any case chksum is that number for the sum modulo 2^32 |
| ChecksumProofs.ExampleOfRfc1071 | RAW_Sockets_Assignment_20/IP_Header_printing/sender.c:27-41 | chksum of the bytes in section 3 of RFC 1071 is the checksum given there |
| ChecksumProofs.ChksumTooLong | RAW_Sockets_Assignment_20/IP_Header_printing/sender.c:27-41 | from 65538 words of all ones on chksum is wrong |
| ChecksumProofs.CsumExact | CN-Notes-2021/raw sockets/rawsender.c:13-22 | for every int count csum is the RFC 1071 checksum unless its second fold carries |
| ChecksumProofs.CsumShort | CN-Notes-2021/raw sockets/rawsender.c:13-22 | csum is the RFC 1071 checksum of every buffer of up to 65538 words |
| ChecksumProofs.CsumTooLong | CN-Notes-2021/raw sockets/rawsender.c:13-22 | one word more is too many: 65539 words for which csum is wrong |
| ChecksumProofs.AllAgree | RAW_Sockets_Assignment_20/packet_sniffing/udp_sender.c:59-81 | up to 65537 words the three implementations and RFC 1071 agree |
| ChecksumProofs.OddTailIsPadded | RAW_Sockets_Assignment_20/IP_Header_printing/sender.c:35-36 | an odd length counts as if padded with a zero byte |
| ChecksumProofs.CsumByBytesOdd | RAW_Sockets_Assignment_20/packet_sniffing/udp_sender.c:66-80 | for every odd int count csum is the RFC 1071 checksum if and only if the byte behind the buffer is zero and the second fold does not carry |
| ChecksumProofs.StoredChecksumVerifies | RAW_Sockets_Assignment_20/IP_Header_printing/sender.c:27-41 | storing the checksum in a zeroed word makes the buffer check to zero |
| ChecksumProofs.StoredChksumVerifies | RAW_Sockets_Assignment_20/IP_Header_printing/sender.c:27-41 | the same for chksum and two zero bytes in memory |
| ChecksumProofs.ChecksumOfPermutation | RAW_Sockets_Assignment_20/IP_Header_printing/sender.c:33-40 | the order of the words does not matter |
| ChecksumProofs.ChecksumOfReplacement | RAW_Sockets_Assignment_20/IP_Header_printing/sender.c:33-40 | replacing a word changes the checksum, except 0x0000 for 0xffff or back next to a non-zero word |
| ChecksumProofs.ByteOrderIndependence | RAW_Sockets_Assignment_20/IP_Header_printing/sender.c:27-41 | swapping the bytes of all words swaps the bytes of the checksum |
| ChecksumProofs.ChksumOfSwappedBuffer | RAW_Sockets_Assignment_20/IP_Header_printing/sender.c:27-41 | the same for chksum and a buffer in memory |
| ServiceProcess.Service.constructor | RAW_Sockets_Assignment_20/Swyamabhoo_server_with_tracer/service.c:131-166 | the first select watches the Unix connection and the listening socket |
| ServiceProcess.Service.AcceptFirst | RAW_Sockets_Assignment_20/Swyamabhoo_server_with_tracer/service.c:173-185 | accepts a ready first client and stops watching the port, else watches it until then |
| ServiceProcess.Service.ReceiveClient | RAW_Sockets_Assignment_20/Swyamabhoo_server_with_tracer/service.c:186-222 | takes in a passed client, or watches the Unix connection again |
| ServiceProcess.Service.Rearm | RAW_Sockets_Assignment_20/Swyamabhoo_server_with_tracer/service.c:223-240 | puts every client known at the start of the round back into the read set |
| ServiceProcess.Service.Serve | RAW_Sockets_Assignment_20/Swyamabhoo_server_with_tracer/service.c:167-242 | one round from select to select, after which exactly the right descriptors are watched |
| ServiceProcess.RoundKeeps | RAW_Sockets_Assignment_20/Swyamabhoo_server_with_tracer/service.c:167-242 | a round keeps the select invariant, adds to the clients exactly the one accepted and the one received, and accepts only if none was accepted before |
| ServiceProcess.ServiceRun | RAW_Sockets_Assignment_20/Swyamabhoo_server_with_tracer/service.c:131-242 | over any rounds and ready sets each select watches the Unix connection, all clients and the port until the first client, bounded by maxfp1; accept runs at most once |
| IssProcess.Iss.constructor | RAW_Sockets_Assignment_20/Swyamabhoo_server_with_tracer/iss.c:93-97 | the first select watches the Unix socket and the FIFO; the port table is all zero |
| IssProcess.Iss.AcceptService | RAW_Sockets_Assignment_20/Swyamabhoo_server_with_tracer/iss.c:104-114 | registers a service under its port, or watches the Unix socket again |
| IssProcess.Iss.ReadTracer | RAW_Sockets_Assignment_20/Swyamabhoo_server_with_tracer/iss.c:115-155 | signals the process in the slot the table holds for the port, or process 0 where that slot was never written, and takes the listening socket over |
| IssProcess.Iss.AcceptAndForward | RAW_Sockets_Assignment_20/Swyamabhoo_server_with_tracer/iss.c:156-196 | sends each accepted client over the connection the table names for its port, in order, and watches the other sockets again |
| IssProcess.ForwardedIs | RAW_Sockets_Assignment_20/Swyamabhoo_server_with_tracer/iss.c:156-196 | what is sent is exactly each client accepted on a ready socket, over the connection in the slot the table holds for its port |
| IssProcess.Iss.Serve | RAW_Sockets_Assignment_20/Swyamabhoo_server_with_tracer/iss.c:98-198 | one round from select to select, after which exactly the right descriptors are watched |
| IssProcess.RoundKeeps | RAW_Sockets_Assignment_20/Swyamabhoo_server_with_tracer/iss.c:98-198 | a round keeps the select invariant and everything taken over, although new sockets are skipped by the bounded loop |
| IssProcess.RoundTables | RAW_Sockets_Assignment_20/Swyamabhoo_server_with_tracer/iss.c:98-198 | a ready door adds one service to the tables, under its port, and a readable port one descriptor; nothing else changes |
| TracerProcess.Tracer.constructor | RAW_Sockets_Assignment_20/Swyamabhoo_server_with_tracer/tracer.c:27-28 | nothing announced yet |
| TracerProcess.Tracer.PacketHandler | RAW_Sockets_Assignment_20/Swyamabhoo_server_with_tracer/tracer.c:45-67 | if bytes 12 and 13 are 8 and 0 and byte 23 is 6, the port in the first two bytes behind the IP header, whose length is four times the low half of byte 14, is written unless it was before, and marked; otherwise nothing changes |
| TracerProcess.AnnouncesOnce | RAW_Sockets_Assignment_20/Swyamabhoo_server_with_tracer/tracer.c:45-67 | over any capture the FIFO gets the source port of each such packet exactly once and nothing else |
| HandoffInvariant.StepInv | RAW_Sockets_Assignment_20/Swyamabhoo_server_with_tracer/iss.c:98-198 | every step of a service, the tracer or the super server keeps the protocol invariant, whatever ports are announced and read and whenever signals are handled |
| HandoffInvariant.RunInv | RAW_Sockets_Assignment_20/Swyamabhoo_server_with_tracer/iss.c:93-198 | the protocol invariant holds in every state of every run |
| HandoffTheorems.ServiceWatches | RAW_Sockets_Assignment_20/Swyamabhoo_server_with_tracer/service.c:131-242 | in every run a service calls select with exactly the right set, and has accepted at most one client itself |
| HandoffTheorems.IssWatches | RAW_Sockets_Assignment_20/Swyamabhoo_server_with_tracer/iss.c:93-198 | in every run the super server calls select with exactly its door, the FIFO and all taken descriptors |
| HandoffTheorems.DeliveredInOrder | RAW_Sockets_Assignment_20/Swyamabhoo_server_with_tracer/service.c:186-220 | in every run what a service received is a prefix, in order, of what the super server sent over its connection, and the rest is under way to it |
| HandoffTheorems.EveryClientOnce | RAW_Sockets_Assignment_20/Swyamabhoo_server_with_tracer/iss.c:156-196 | in every run every client the super server forwarded is in exactly one place, at or on the way to the service it was sent to |
| HandoffTheorems.TakenOnce | RAW_Sockets_Assignment_20/Swyamabhoo_server_with_tracer/iss.c:147-150 | in every run taken-over ports are distinct, and so are the descriptors that stand for them |
| HandoffTheorems.RegistrationNeeded | RAW_Sockets_Assignment_20/Swyamabhoo_server_with_tracer/iss.c:140-141 | in every run the table names an owner of a port if and only if one has registered |
| HandoffHistory.ReadOnce | RAW_Sockets_Assignment_20/Swyamabhoo_server_with_tracer/tracer.c:57-62 | in every run a port is read from the FIFO at most once |
| HandoffHistory.TakenInOrder | RAW_Sockets_Assignment_20/Swyamabhoo_server_with_tracer/service.c:39-62 | in every run what was taken over from a service, and then what is under way from it, is all that its handler sent, in order |
| HandoffHistory.RegisteredInOrder | RAW_Sockets_Assignment_20/Swyamabhoo_server_with_tracer/iss.c:104-114 | in every run services are registered in the order in which they connected |
| HandoffHistory.TakenFromOwnerIffRegistered | RAW_Sockets_Assignment_20/Swyamabhoo_server_with_tracer/iss.c:117-150 | in every run what stands for a taken-over port was sent by the handler of the service that the table named when the port was read, over the connection to it; that service owns the port if and only if an owner had registered by then |
| HandoffHistory.ForwardedToOwnerIff | RAW_Sockets_Assignment_20/Swyamabhoo_server_with_tracer/iss.c:156-192 | in every run a forwarded client goes to the service on whose socket it came in if and only if the table names the same service as when the port was read; with different ports, if and only if the owner had registered by then or still has not |
| HandoffRouting.RoutesToOwner | RAW_Sockets_Assignment_20/Swyamabhoo_server_with_tracer/iss.c:104-196 | with different ports, registered before they are read: the table names the connection to the owner of each taken port, and what was taken over is the listening socket of that service or its standard input, sent by its handler |
| HandoffRouting.AllToOwners | RAW_Sockets_Assignment_20/Swyamabhoo_server_with_tracer/iss.c:156-196 | with different ports, registered before they are read, every client goes to the service on whose socket it came in |
| HandoffRouting.OneSignal | RAW_Sockets_Assignment_20/Swyamabhoo_server_with_tracer/tracer.c:52-64 | with different ports, registered before they are read, no service handles two signals |
| HandoffRouting.TakesListenerIffListening | RAW_Sockets_Assignment_20/Swyamabhoo_server_with_tracer/service.c:39-62 | with different ports, registered before they are read: what is taken over was sent by the one run of the handler of its service, and is the listening socket if and only if the service had started to listen by then, else its standard input |
| HandoffRouting.EarlySignalStarves | RAW_Sockets_Assignment_20/Swyamabhoo_server_with_tracer/iss.c:140-150 | with different ports, registered before they are read, a service that handles its signal before it listens never gets a client from the super server |
| HandoffRouting.LoopSendsToOwners | RAW_Sockets_Assignment_20/Swyamabhoo_server_with_tracer/iss.c:156-196 | with different ports, registered before they are read, whatever the accept loop of the process accepts on listening sockets goes to the service whose socket it was accepted on |
| HandoffRounds.RoundIsServe | RAW_Sockets_Assignment_20/Swyamabhoo_server_with_tracer/iss.c:98-198 | in every run the steps of the super server from one select to the next are one call of Iss.Serve: same state, same signals, same descriptors sent over the same connections |
| HandoffRuns.ClientDelivered | RAW_Sockets_Assignment_20/Swyamabhoo_server_with_tracer/iss.c:156-196 | a run in which a client accepted by the super server ends up in the table of its service |
| HandoffRuns.EarlySignalTakesInput | RAW_Sockets_Assignment_20/Swyamabhoo_server_with_tracer/iss.c:140-150 | a run in which the super server takes over, for a registered port, what is no listening socket |
| HandoffRuns.EarlyReadEnds | RAW_Sockets_Assignment_20/Swyamabhoo_server_with_tracer/iss.c:117-140 | a run in which a port is read before anybody has registered and the super server ends itself |
| HandoffRuns.EarlyReadMisdelivers | RAW_Sockets_Assignment_20/Swyamabhoo_server_with_tracer/iss.c:117-192 | a run in which an early read sends a client of the first service to the second, although both have registered |
| HexDump.PrintData | RAW_Sockets_Assignment_20/packet_sniffing/sniff.c:173-218 | the interleaved loop prints exactly the rows of the data |
| HexDump.RowShape | RAW_Sockets_Assignment_20/packet_sniffing/sniff.c:194-216 | every row has its characters at offset 60 and ends behind them |
| HexDump.RowCell | RAW_Sockets_Assignment_20/packet_sniffing/sniff.c:191-199 | the two digits of cell k stand at offset 3k + 4, blank behind the last byte |
| HexDump.DumpRow | RAW_Sockets_Assignment_20/packet_sniffing/sniff.c:173-218 | rows begin 77 characters apart; each has its two upper-case hexadecimal digits and its character for every byte, a newline at the end, and blanks everywhere else |
| HexDump.DumpByte | RAW_Sockets_Assignment_20/packet_sniffing/sniff.c:173-218 | byte i shows in row i / 16 as its two digits and, at offset 60 + i % 16, as itself if it is from 32 to 128 and as a dot otherwise |
| HexDump.DumpLength | RAW_Sockets_Assignment_20/packet_sniffing/sniff.c:173-218 | every row but the last has 77 characters, the last 61 and one for each byte |
| HexDump.DumpReadsBack | RAW_Sockets_Assignment_20/packet_sniffing/sniff.c:173-218 | reading the hexadecimal column of a dump gives back the data |
| HexDump.DumpInjective | RAW_Sockets_Assignment_20/packet_sniffing/sniff.c:173-218 | different data never has the same dump |
| NumberText.Reverse | Device_driver_Assignment_11/Device-Dirvers-2/Programs/tickTock.c:64-74 | the first characters are reversed in place, the others kept |
| NumberText.Itoa | Device_driver_Assignment_11/Device-Dirvers-2/Programs/tickTock.c:77-117 | the buffer holds a minus sign for negative numbers, then the decimal digits, the one for 10^k k places from the right, as few as possible but at least one, and a terminator |
| NumberText.Atoi | Device_driver_Assignment_11/Device-Dirvers-2/Programs/tickTock.c:118-129 | the unchecked positional value of the characters before the terminator |
| NumberText.ValueFromLeft | Device_driver_Assignment_11/Device-Dirvers-2/Programs/tickTock.c:118-129 | every character counts its code less 48, times ten for each character behind it |
| NumberText.ValueOfDecimal | Device_driver_Assignment_11/Device-Dirvers-2/Programs/tickTock.c:99-114 | the digits have the value of the number, no leading zero, and the least possible length |
| NumberText.AtoiOfItoa | Device_driver_Assignment_11/Device-Dirvers-2/Programs/tickTock.c:77-129 | atoi undoes itoa if and only if the number is not negative |
| NumberText.TextFitsBuffer | Device_driver_Assignment_11/Device-Dirvers-2/Programs/tickTock.c:137-138 | every 32-bit number fits the buffer of 40 characters |
| RpcSort.SwapByArithmetic | Hamming_code_RPC_Assignment_19/rpc/rpc_math/MathSpec_server.c:34-36 | adding and subtracting exchanges two 32-bit values even when the sum wraps |
| RpcSort.Sort | Hamming_code_RPC_Assignment_19/rpc/rpc_math/MathSpec_server.c:28-39 | the first len elements end up ascending and are a permutation, the others are kept |
| RpcSort.MathProc | Hamming_code_RPC_Assignment_19/rpc/rpc_math/MathSpec_server.c:10-43 | the exact sum, difference or product if it fits 32 bits, and in any case congruent to it modulo 2^32; the truncated quotient; division sorts as well |

## Left out

- Hamming: printing and prompts; `int` overflow for messages near 2^31 bits. `pow` and `log2` are
  exact, which double arithmetic is on this range for the comparisons made.
- HammingCheck.Check: where the program writes behind the word, the model writes nothing and says so.
- Strings outside the grammar: `Evaluate` models what the program does with all of them, step by
  step; what comes of it is stated for some kinds only (`AnswerOfNothing` to
  `AnswerOfForeignOperator`).
- Evaluator.Evaluate: overflow, a zero divisor, reading an empty stack and an unknown operator end
  the run with a fault, because C leaves their result undefined.
- The packet-building and socket code around the checksum functions, and big-endian hosts.
- Handoff: the calls themselves. `select` reports an arbitrary subset of what is watched, `accept`
  and `recvmsg` hand out unused descriptors, and failures of `recvmsg`, and of `accept` in the
  super server, leave everything as it was. Failed sends, end of file, failed reads from the FIFO
  and process exits are not modelled.
- Handoff: the unguarded capacity of the tables (255 entries, descriptors below FD_SETSIZE), and
  the data that services exchange with their clients.
- Handoff: a service creates its socket, binds it and listens in one step, because a descriptor sent
  in between refers to the same socket. A signal to process 0 ends the super server; that it also
  reaches other processes of its process group is left out.
- The tracer's second thread, its shared memory and its capture filter.
- NumberText.Itoa: INT_MIN, whose negation overflows in C, gets its mathematical text, and the
  copy into the global buffer is left out.
- NumberText.Atoi: sums over mathematical integers, because C leaves overflow undefined.
- RpcSort.MathProc: signed overflow wraps, as the sort relies on; RPC transport is left out.
- Clients, drivers, other copies of the same functions, and the other exercises of the collection.
