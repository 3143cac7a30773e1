# Signature detectors in hardware, and the board software beside them

The repository turns lists of byte signatures into VHDL detectors, one NFA chain per signature, in two versions: one
that samples a byte on every clock edge, and one without a clock that reacts to changes of the byte on its port. Next
to the generators lives C code for the board: I2C transfers, the programming of a clock chip, a packet-to-word
converter and the timer interrupt. This project models that logic in Dafny and proves what it does.

`dafny verify dfyconfig.toml` checks everything.

## How the detectors are modelled

* `Vhdl.dfy` is a simulator for the subset of VHDL the generators emit. Every concurrent assignment and every instance
  of a leaf cell is a process with the sensitivity list of its source; signals are looked up by their printed name;
  delta cycles run until no signal has an event (the simulation cycle of section 14.7.5 of IEEE Std 1076-2008). Before
  initialization a signal driven by an instance has the default of the instance's port, which is undefined, and any other
  one its declared value (sections 14.7.3.2 and 14.7.5.2). The simulator knows nothing about signatures. The cells `FF`,
  `byte_compare` and `pull_up_module` are those shipped in the two directories; the clocked comparator has no latency.
* `Names.dfy` builds the identifiers as strings, with decimal printing, and proves that two names never print alike,
  not even up to letter case (section 15.4.2 of the standard).
* `ClockedGenerator.dfy` and `TriggeredGenerator.dfy` hold the scripts' own nested loops as methods of an emitter, and
  the netlist they write as a function. `Hex.dfy`, `Signatures.dfy` and `Scripts.dfy` cover `hexify`, the loop variable
  `j` that is read after its loop, the sort, and the two ways the scripts die.
* `ClockedNetlist.dfy`, `ClockedDetector.dfy`, `ClockedTheorems.dfy` and `ClockedIdentifiers.dfy` prove the clocked
  compiler correct by simulating its output: any list of signatures, any sequence of port changes, with or without a
  reset.
* `TriggeredNetlist.dfy`, `TriggeredChain.dfy`, `TriggeredDetector.dfy` and `TriggeredIdentifiers.dfy` do the same for
  the data-triggered compiler, whose simulation is shown to be a small machine on rows of comparators.
  `TriggeredStreams.dfy`, `TriggeredPaths.dfy`, `TriggeredTheorems.dfy` and `TriggeredFactors.dfy` say what that machine
  finds in streams of bytes, compared with what it is for and with the clocked detector. `NameLists.dfy` is shared by the
  two identifier modules.

The board software is modelled statement by statement in classes and methods whose specification functions are then
studied: `I2cAccess.dfy`, `I2cTheorems.dfy`, `I2cRoundTrip.dfy`, `I2cHistory.dfy`, `Si5324.dfy`, `SeqSend.dfy`,
`Timers.dfy`. An interrupt schedule lists what happens between any two accesses to the shared flags, so that a statement
about all schedules is one about all interleavings.

## Results that contradict expectations

* One would expect the data-triggered detector to find what the clocked one finds once zero bytes, which stand for no
  data, are deleted. Apart from signatures that begin with a zero byte, which neither sees, it does so only for those of
  one byte (`TriggeredTheorems.AgreeIff`). `byte_compare` leaves `enable` out of its sensitivity list and holds its value
  while not enabled, so a zero byte takes the enable away before the next byte arrives. On streams without zeros and
  repetitions no occurrence is missed, but every signature of three or more bytes that can be reported at all is also
  reported when it has not occurred (`TriggeredTheorems.DenseAgreeIff`).
* Some signatures are never reported: the port does not show a repeated byte as a change, and a match that the next byte
  tests again is lost over a foreign one. Which comparators can be driven high is a recursion on the signature
  (`TriggeredPaths.Reachable`), exact on all streams (`TriggeredTheorems.ReachIff`, `TriggeredTheorems.DetectableIff`):
  "xyyy" never is, "karri" is (`TriggeredTheorems.DoubledReported`).
* For the same reason comparator k of the data-triggered detector stands for "the first k+1 bytes have just gone by" only
  if k is 0 (`TriggeredTheorems.ChainInvariantIff`, with the same exception), and zero bytes in the data are harmless
  only for signatures of one byte and for those that are never reported (`TriggeredTheorems.ZerosIrrelevantIff`).
* A signature inside another one is not always reported with it by the data-triggered detector, as it is by the clocked
  one. Prefixes and single bytes are, on every run (`TriggeredFactors.FactorKept`); of a signature of different bytes,
  and of others that can be parted there, no other part is (`TriggeredFactors.FactorIff`): on the bytes of "caxt" the
  detector of "cat" fires and that of "at" does not (`TriggeredFactors.CatWithoutAt`).
* `hexify` prints characters below 0x10 with one digit. An odd number of them in a line raises a TypeError; an even
  number compiles silently into the detector of another, shorter signature (`Scripts.LineDetected`, `Hex.HexCollision`).
* The '0' that the clocked script writes into the declarations of the stage flip-flops has no effect in simulation, for
  each of them takes the undefined default of the port that drives it (`ClockedDetector.ElaboratedSignals`). Without a
  reset a stage is unknown exactly while all the bytes sampled so far could have led to it; that never makes an output
  high, which stays undefined instead of low (`ClockedTheorems.StageExactness`, `ClockedTheorems.OutputExactness`).
* A blank line raises an UnboundLocalError only when it sorts first; otherwise the file written uses a signal that it
  does not declare (`Scripts.WellFormedIff`). An empty input file yields the port name `output_-1`.
* The I2C round trip is safe exactly when no send has failed since the last receive (`I2cHistory.HistoryRoundTripIff`):
  the completion of a failed send can arrive late and be taken for that of the next one. And 2^32 errors are the same as
  none (`I2cTheorems.ErrorsForgotten`).
* `seq_recv_callback` keeps the packet length in one byte and encodes packets of 256 bytes or more in part only
  (`SeqSend.PacketComplete`).

## Model

| member | source | states |
|---|---|---|
| Vhdl.SimulationOrder | NFA_script/Clk_based/seq_match.py:110-122 | Permuting the concurrent statements of a design with one driver per signal changes no simulation |
| Vhdl.SettleGates | NFA_script/data_triggered_based/seq_match.py:74-92 | With statements ranked from what wakes them to what they drive, delta cycles end within the rank and every gate then agrees with its inputs |
| Vhdl.SynchronousStep | NFA_script/Clk_based/FF.vhd:22-30 | After any port change a quiet netlist is quiet again within its rank, and each register holds what one run of its cell computes from the signals before the edge |
| Vhdl.SynchronousPowerUp | NFA_script/Clk_based/pull_up_module.vhd:16-24 | Power-up leads from any environment to a quiet one, with all registers cleared in reset and each as it was otherwise |
| Names.ShowInjective | NFA_script/Clk_based/seq_match.py:65-107 | Identifiers that agree up to letter case come from the same name, indices and hexadecimal digits included |
| Names.ShowIdentifier | NFA_script/Clk_based/seq_match.py:82-107 | Every name in which no digits are missing prints a basic identifier |
| Names.DecLeading | NFA_script/Clk_based/seq_match.py:28 | Indices are printed without leading zeros |
| Names.InputsSpelled | NFA_script/Clk_based/seq_match.py:22-24 | The input ports are `clk`, `reset` and `data_in` |
| Names.OutputsSpelled | NFA_script/Clk_based/seq_match.py:26-29 | Output port i is `output_` and the index |
| Names.FirstOutputs | NFA_script/Clk_based/seq_match.py:26-29 | The first output port is `output_0`, the thirteenth `output_12` |
| Names.SharedSpelled | NFA_script/data_triggered_based/seq_match.py:57-58 | The shared signals and the components by name |
| Names.MatchSpelled | NFA_script/Clk_based/seq_match.py:136-141 | The match, hold and spare signals by name |
| Names.LatchSpelled | NFA_script/Clk_based/seq_match.py:145-154 | The labels of latches and output flip-flops |
| Names.CompareSpelled | NFA_script/Clk_based/seq_match.py:72-73 | The comparator signal of a stage, with its digits |
| Names.CompareLabelSpelled | NFA_script/Clk_based/seq_match.py:85-86 | The label of its comparator |
| Names.StageSpelled | NFA_script/Clk_based/seq_match.py:75-78 | The flip-flop and conjunction signals of a stage |
| Names.EnAndSpelled | NFA_script/data_triggered_based/seq_match.py:64-65 | The enabling conjunction of a stage and its label |
| Names.StageLabelsSpelled | NFA_script/Clk_based/seq_match.py:93-103 | The labels of flip-flop and conjunction |
| Hex.Hexify | NFA_script/Clk_based/seq_match.py:53-62 | The nested loops produce, per line, the digits of its characters without trailing whitespace |
| Hex.RStripExactly | NFA_script/Clk_based/seq_match.py:58 | The stripped line is the one prefix that drops whitespace only and does not end in whitespace |
| Hex.RStripByte | NFA_script/Clk_based/seq_match.py:58 | A trailing byte is stripped if it is 9 to 13 or 32, and kept otherwise |
| Hex.JayText | NFA_script/Clk_based/seq_match.py:53-62 | The line "jay" with its line feed becomes 6a6179 |
| Hex.LongText | NFA_script/Clk_based/seq_match.py:59-60 | Characters from 0x10 up give exactly two digits each |
| Hex.SliceRoundTrip | NFA_script/Clk_based/seq_match.py:71-74 | The slice for stage k is the text of character k |
| Hex.ShortText | NFA_script/Clk_based/seq_match.py:59-60 | One character below 0x10 makes the text shorter than two digits per character |
| Hex.HexFaithful | NFA_script/Clk_based/seq_match.py:53-62 | The bytes the slices denote are the line if and only if no character is below 0x10 |
| Hex.HexInjective | NFA_script/data_triggered_based/seq_match.py:44-53 | On such lines the text determines the line |
| Hex.HexCollision | NFA_script/data_triggered_based/seq_match.py:49-52 | The lines 01 02 and 12 have the same text |
| ClockedGenerator.Emitter.SeqDetectHeader | NFA_script/Clk_based/seq_match.py:13-30 | The ports written, one output per signature |
| ClockedGenerator.Emitter.SeqDetectSignals | NFA_script/Clk_based/seq_match.py:65-79 | All stage signals are declared in order; it fails exactly on an odd number of digits |
| ClockedGenerator.Emitter.SeqDetectPorts | NFA_script/Clk_based/seq_match.py:82-107 | The chains and matches of all signatures with the leftover `j`; it fails exactly when the first signature is blank |
| ClockedGenerator.Emitter.PullUpSignals | NFA_script/Clk_based/seq_match.py:136-141 | One match and one hold signal per signature |
| ClockedGenerator.Emitter.PullUpPort | NFA_script/Clk_based/seq_match.py:145-154 | One latch and one output flip-flop per signature |
| ClockedGenerator.Compile | NFA_script/Clk_based/seq_match.py:178-182 | Which exception the sorted lines raise, or that exactly the specified netlist is written |
| ClockedNetlist.NetlistOneDriver | NFA_script/Clk_based/seq_match.py:82-154 | No two statements drive one signal |
| ClockedNetlist.NetlistRanked | NFA_script/Clk_based/seq_match.py:82-107 | An explicit rank on signals grows along every combinational dependency and all registers share clock and reset |
| ClockedDetector.RunInvariant | NFA_script/Clk_based/seq_match.py:82-154 | Every settling of every run ends, reset or not, and keeps stages, latches and outputs equal to their meaning in the sampled bytes |
| ClockedDetector.ElaboratedSignals | NFA_script/Clk_based/seq_match.py:72-78 | Stage flip-flops and conjunctions are declared '0'; the conjunctions start with it, the flip-flops and everything else undefined |
| ClockedTheorems.StageExactness | NFA_script/Clk_based/seq_match.py:92-106 | The flip-flop of stage k is high if and only if the last k sampled bytes, the first one of the run aside, are the first k of the signature; otherwise it is low, or unknown if without a reset these k bytes end with all the bytes sampled |
| ClockedTheorems.MatchExactness | NFA_script/Clk_based/seq_match.py:105-107 | A match is signalled if and only if the usable bytes together with the one on the port end with the signature; otherwise it is low, or unknown if without a reset the signature ends with all of them |
| ClockedTheorems.OutputExactness | NFA_script/Clk_based/seq_match.py:145-154 | An output is high if and only if its signature occurred since reset or power-up, after the warm-up byte and one clock ago; otherwise it is low, or undefined if there has been no reset |
| ClockedTheorems.OutputSticky | NFA_script/Clk_based/pull_up_module.vhd:16-24 | A high output stays high until reset |
| ClockedTheorems.MatchesCounted | NFA_script/Clk_based/seq_match.py:92-107 | The number of edges with a match since reset is the number of occurrences, overlapping ones included |
| ClockedTheorems.Compositional | NFA_script/Clk_based/seq_match.py:82-107 | Match and output of a signature are the same in every list it is compiled with |
| ClockedTheorems.FactorMonotone | NFA_script/Clk_based/seq_match.py:82-107 | A factor of a detected signature is detected, and a suffix matches at the same time |
| ClockedTheorems.StatementOrder | NFA_script/Clk_based/seq_match.py:82-122 | No permutation of the emitted statements changes any simulation |
| ClockedTheorems.DriveSamples | NFA_script/Clk_based/FF.vhd:22-30 | Putting bytes on the port around clock edges samples exactly these bytes |
| ClockedTheorems.ClockedDetectsExactly | NFA_script/Clk_based/seq_match.py:82-154 | Fed a stream between a warm-up and a final clock, an output is high if and only if its signature occurs in the stream |
| ClockedIdentifiers.NoCapture | NFA_script/Clk_based/seq_match.py:65-154 | Ports, signals, labels and component names are basic identifiers and pairwise different up to letter case |
| ClockedIdentifiers.DrivenOnce | NFA_script/Clk_based/seq_match.py:82-154 | Each driven signal is the target of one statement |
| ClockedIdentifiers.OutputDrivenOnce | NFA_script/Clk_based/seq_match.py:151-154 | Each output port is driven by its own FF_out and by nothing else |
| ClockedIdentifiers.ClosedIffNoBlank | NFA_script/Clk_based/seq_match.py:105-106 | Everything read is declared and driven if and only if no signature is blank |
| TriggeredGenerator.Emitter.SeqDetectHeader | NFA_script/data_triggered_based/seq_match.py:13-29 | The ports written, one output per signature |
| TriggeredGenerator.Emitter.SeqDetectSignals | NFA_script/data_triggered_based/seq_match.py:56-71 | All stage signals are declared in order; it fails exactly on an odd number of digits |
| TriggeredGenerator.Emitter.SeqDetectPorts | NFA_script/data_triggered_based/seq_match.py:74-92 | The chains of enabled comparators and the gated matches with the leftover `j` |
| TriggeredGenerator.Emitter.PullUpPort | NFA_script/data_triggered_based/seq_match.py:132-136 | One latch per signature, driving its output |
| TriggeredGenerator.Compile | NFA_script/data_triggered_based/seq_match.py:160-164 | Which exception the sorted lines raise, or that exactly the specified netlist is written |
| TriggeredNetlist.NetlistOneDriver | NFA_script/data_triggered_based/seq_match.py:74-136 | No two statements drive one signal |
| TriggeredNetlist.NetlistRanked | NFA_script/data_triggered_based/seq_match.py:74-92 | An explicit rank grows along every wake-up, from the signals in a sensitivity list to the signal driven |
| TriggeredNetlist.EnableChainAcyclic | NFA_script/data_triggered_based/seq_match.py:76-87 | A rank that counts the stages grows along every read, enables included: no signal depends on itself |
| TriggeredIdentifiers.NoCapture | NFA_script/data_triggered_based/seq_match.py:56-136 | Ports, signals, labels and component names are basic identifiers and pairwise different up to letter case |
| TriggeredIdentifiers.DrivenOnce | NFA_script/data_triggered_based/seq_match.py:74-136 | Each driven signal is the target of one statement |
| TriggeredIdentifiers.ClosedIffNoBlank | NFA_script/data_triggered_based/seq_match.py:89-90 | Everything read is declared and driven if and only if no signature is blank |
| TriggeredChain.PrefixStages | NFA_script/data_triggered_based/seq_match.py:76-87 | The comparators of a prefix move like the first ones of the whole signature on every run |
| TriggeredDetector.RunSettles | NFA_script/data_triggered_based/seq_match.py:74-111 | Every settling of every run ends within the iteration limit |
| TriggeredDetector.RunRefines | NFA_script/data_triggered_based/seq_match.py:74-111 | For every sequence of port changes, simultaneous ones included, the simulated comparators and output of a signature are those of its row machine from the first reset on |
| TriggeredStreams.StageSignal | NFA_script/data_triggered_based/seq_match.py:80-85 | The simulated comparator k is that of the row, at the end of every run |
| TriggeredStreams.GatedMatch | NFA_script/data_triggered_based/seq_match.py:89-91 | The simulated match is the last comparator, gated by reset, at the end of every run |
| TriggeredStreams.DetectsRow | NFA_script/data_triggered_based/seq_match.py:132-136 | The simulated output and match after a stream are the latch and the last comparator of the row |
| TriggeredStreams.StatementOrder | NFA_script/data_triggered_based/seq_match.py:95-111 | No permutation of the emitted statements changes any simulation |
| TriggeredTheorems.SingleByte | NFA_script/data_triggered_based/seq_match.py:80-82 | A signature of one byte is latched if and only if it occurs in the stream without its zeros |
| TriggeredTheorems.FirstStage | NFA_script/data_triggered_based/seq_match.py:80-82 | Comparator 0 is high if and only if the last byte other than zero is the first of the signature |
| TriggeredTheorems.ChainInvariantIff | NFA_script/data_triggered_based/seq_match.py:76-92 | On all streams the simulated comparator k is high exactly when the last k+1 bytes other than zero are the first k+1 of the signature, if and only if k is 0 or the signature begins with a zero byte |
| TriggeredTheorems.DenseChainIff | NFA_script/data_triggered_based/seq_match.py:76-92 | The same on streams without zeros and repetitions: if and only if k is 0 or comparator k cannot be reached |
| TriggeredTheorems.ZerosIrrelevantIff | NFA_script/data_triggered_based/seq_match.py:98-101 | Zero bytes anywhere never change what is detected if and only if the signature has one byte or its last comparator cannot be reached |
| TriggeredTheorems.HighExplained | NFA_script/data_triggered_based/byte_compare.vhd:21-32 | On every stream, zeros included, a comparator that is high was free to be, in the sense of the recursion, with its predecessor low, or shares the last byte with it |
| TriggeredTheorems.ReachIff | NFA_script/data_triggered_based/byte_compare.vhd:21-32 | The simulated comparator k is high after some stream if and only if the recursion on the signature reaches it |
| TriggeredTheorems.DetectableIff | NFA_script/data_triggered_based/seq_match.py:74-111 | The simulated output is high after some stream if and only if the recursion reaches the last comparator |
| TriggeredTheorems.DoubledReported | NFA_script/data_triggered_based/seq_match.py:74-92 | No stream raises the simulated output of "xyyy", some stream raises that of "karri" |
| TriggeredTheorems.SeparatedDeaf | NFA_script/data_triggered_based/byte_compare.vhd:21-32 | With a zero after every byte no signature of two or more bytes is ever latched |
| TriggeredTheorems.AgreeIff | NFA_script/data_triggered_based/seq_match.py:74-111 | The two compilers agree on all streams, zeros deleted, if and only if the signature has one byte or begins with a zero byte |
| TriggeredTheorems.DenseComplete | NFA_script/data_triggered_based/seq_match.py:76-87 | Without zeros and repetitions comparator k is high whenever the stream ends with the first k+1 bytes, and every occurrence is latched |
| TriggeredTheorems.DenseSound | NFA_script/data_triggered_based/seq_match.py:76-87 | On such streams at most two bytes are latched only if they occurred |
| TriggeredPaths.IntrudedHeld | NFA_script/data_triggered_based/byte_compare.vhd:25-31 | A match is carried across a foreign byte behind the second one |
| TriggeredPaths.MakeLoose | NFA_script/data_triggered_based/byte_compare.vhd:25-31 | Whatever has gone by, a free comparator can be driven to hold a match with its predecessor low, without zeros or repetitions |
| TriggeredPaths.MakeHigh | NFA_script/data_triggered_based/byte_compare.vhd:25-31 | Whatever has gone by, a comparator the recursion reaches can be driven high |
| TriggeredTheorems.FalseMatch | NFA_script/data_triggered_based/byte_compare.vhd:25-31 | Every comparator but the first that can be reached can be driven high while its bytes have not gone by |
| TriggeredTheorems.DenseAgreeIff | NFA_script/data_triggered_based/seq_match.py:74-111 | On such streams the compilers agree if and only if the signature has at most two bytes or its last comparator cannot be reached |
| TriggeredTheorems.DenseNoMiss | NFA_script/data_triggered_based/seq_match.py:74-111 | On such streams everything the clocked detector finds is found |
| TriggeredFactors.FactorKept | NFA_script/data_triggered_based/seq_match.py:74-92 | On every run, resets included, an output that is high implies that of every prefix and of every single byte of its signature |
| TriggeredFactors.PartLost | NFA_script/data_triggered_based/seq_match.py:74-92 | A stream on which a signature is latched and matches while a part of two or more bytes, behind which it can be parted, never got past its first comparator |
| TriggeredFactors.DistinctPartable | NFA_script/data_triggered_based/seq_match.py:74-92 | A signature of different bytes can be parted anywhere behind its first byte |
| TriggeredFactors.FactorIff | NFA_script/data_triggered_based/seq_match.py:74-92 | The output of a signature implies that of its part p..q on all streams if and only if p is 0 or q is p+1, where the signature can be parted |
| TriggeredFactors.LastGoneBy | NFA_script/data_triggered_based/byte_compare.vhd:21-32 | A last comparator that is not free is high only while the last byte is the one that has just gone by |
| TriggeredFactors.SuffixIff | NFA_script/data_triggered_based/seq_match.py:74-92 | Its match implies that of its suffix at the same moment on all streams if and only if the suffix is all of it, or a single byte whose comparator is not free |
| TriggeredFactors.CatWithoutAt | NFA_script/data_triggered_based/seq_match.py:74-92 | On c, a, x, t the simulated detector of "cat" fires and matches and that of "at" does neither |
| Scripts.SortedOrdered | NFA_script/Clk_based/seq_match.py:176 | The sorted list is ordered and has the lines with their multiplicities |
| Scripts.OrderedUnique | NFA_script/Clk_based/seq_match.py:176 | It is the only such list, whatever the sorting algorithm |
| Scripts.SmallerLineFirst | NFA_script/Clk_based/seq_match.py:176 | Of two lines that agree up to a position where the first one ends or has the smaller byte, the first owns the smaller output |
| Scripts.CatBeforeDog | NFA_script/Clk_based/seq_match.py:176 | The lines "cat" and "dog" are sorted in this order |
| Scripts.OutputOfLine | NFA_script/Clk_based/seq_match.py:164-180 | The output owned by a line stands for that line |
| Scripts.OutputOfInjective | NFA_script/Clk_based/seq_match.py:164-180 | Different lines of the file own different outputs |
| Scripts.LineOfOutput | NFA_script/Clk_based/seq_match.py:164-180 | Every output is owned by a line |
| Scripts.HexListDigits | NFA_script/Clk_based/seq_match.py:70 | All texts have an even number of digits if and only if every line has an even number of characters below 0x10 |
| Scripts.FirstBlank | NFA_script/Clk_based/seq_match.py:105-106 | The first signature is blank if and only if some blank line is not above any other line |
| Scripts.ClockedScript | NFA_script/Clk_based/seq_match.py:157-182 | The exceptions and the design in terms of the unsorted lines |
| Scripts.TriggeredScript | NFA_script/data_triggered_based/seq_match.py:139-164 | The same for the other script |
| Scripts.LineDetected | NFA_script/Clk_based/seq_match.py:157-182 | The output owned by a line goes high on exactly the streams containing the stripped line if and only if no character of it is below 0x10 |
| Scripts.TriggeredLineDetected | NFA_script/data_triggered_based/seq_match.py:139-164 | With the data-triggered script the output owned by a line goes high on exactly the streams containing it, zeros deleted, if and only if the line is one character from 0x10 up |
| Scripts.WellFormedIff | NFA_script/Clk_based/seq_match.py:105-106 | The file written by either script declares everything it reads if and only if no line is blank |
| Scripts.EmptyFile | NFA_script/Clk_based/seq_match.py:28 | An empty file yields a port that is not an identifier |
| I2cAccess.XiicLib.constructor | data_and_seq_send/echo_server/src/i2c_access.c:150-152 | The flags and the error count after setup |
| I2cAccess.XiicLib.StatusHandler | data_and_seq_send/echo_server/src/i2c_access.c:405-422 | Receive completion comes before send completion comes before counting an error, modulo 2^32 |
| I2cAccess.XiicLib.I2cWriteData | data_and_seq_send/echo_server/src/i2c_access.c:239-272 | The polling loop refines the transfer function under every schedule |
| I2cAccess.XiicLib.I2cReadData | data_and_seq_send/echo_server/src/i2c_access.c:287-315 | The same for receiving, and the buffer holds what the controller stored |
| I2cAccess.XiicLib.I2cPhyWrite | data_and_seq_send/echo_server/src/i2c_access.c:170-186 | The register and the two bytes of the value are sent, high byte first |
| I2cAccess.XiicLib.I2cPhyRead | data_and_seq_send/echo_server/src/i2c_access.c:201-224 | On success the value is 256 times the first byte received plus the second; any other outcome leaves the caller's variable untouched |
| I2cTheorems.FlagAfter | data_and_seq_send/echo_server/src/i2c_access.c:405-422 | A flag is up exactly if it was, or the handler took an event for a completion in its direction |
| I2cTheorems.CountAfter | data_and_seq_send/echo_server/src/i2c_access.c:415-421 | The count grows by the events that are neither completions nor slave-ready, modulo 2^32 |
| I2cTheorems.CountExactly | data_and_seq_send/echo_server/src/i2c_access.c:239-315 | The count after a call is that before plus the errors handled until it returned, those of the wait for an idle bus included, modulo 2^32 |
| I2cTheorems.TransferExactly | data_and_seq_send/echo_server/src/i2c_access.c:239-315 | Success if and only if some turn sees a completion handled since the flag was cleared with no error read before; failure if and only if some turn reads a non-zero count first |
| I2cTheorems.RunCount | data_and_seq_send/echo_server/src/i2c_access.c:415-421 | Over any run of calls the count never decreases while fewer than 2^32 errors occur |
| I2cTheorems.ErrorsStick | data_and_seq_send/echo_server/src/i2c_access.c:259-264 | After an error every later call not complete at its first look fails, in every continuation short of 2^32 errors |
| I2cTheorems.ErrorsForgotten | data_and_seq_send/echo_server/src/i2c_access.c:259-264 | With the 2^32nd error a call incomplete at first succeeds |
| I2cRoundTrip.TransferDone | data_and_seq_send/echo_server/src/i2c_access.c:239-315 | A successful call has carried out its own transfer once and nothing else, and leaves none in progress |
| I2cRoundTrip.PhyWriteStores | data_and_seq_send/echo_server/src/i2c_access.c:170-186 | A successful write leaves the value divided by 256 and its remainder in the register of the slave, and nothing else changed |
| I2cRoundTrip.PhyReadDelivers | data_and_seq_send/echo_server/src/i2c_access.c:201-224 | A successful read delivers the first two bytes of the register of the slave addressed and changes only the selection |
| I2cRoundTrip.RoundTrip | data_and_seq_send/echo_server/src/i2c_access.c:170-224 | If write and read both succeed, the value that the read delivers is the value written |
| I2cRoundTrip.LostWrite | data_and_seq_send/echo_server/src/i2c_access.c:170-224 | The trip on which the completion of a leftover send is taken for that of the new one, which is lost |
| I2cRoundTrip.RoundTripIff | data_and_seq_send/echo_server/src/i2c_access.c:170-224 | From a given state the round trip holds for all values and schedules if and only if no send is in progress |
| I2cHistory.RunFresh | data_and_seq_send/echo_server/src/i2c_access.c:239-315 | A run in which no send has failed since the last receive leaves no send in progress |
| I2cHistory.FailedSendLeft | data_and_seq_send/echo_server/src/i2c_access.c:259-264 | A send that fails right after set-up can leave one |
| I2cHistory.LeftoverRun | data_and_seq_send/echo_server/src/i2c_access.c:239-315 | Every other history occurs in an honest run that leaves one |
| I2cHistory.HistoryRoundTripIff | data_and_seq_send/echo_server/src/i2c_access.c:170-224 | From set-up and for what a caller knows, transfers and statuses: the round trip holds in all honest runs with this history if and only if no send has failed since the last receive |
| Si5324.MuxInit | data_and_seq_send/echo_server/src/si5324.c:142-157 | The channel byte is sent to the multiplexer |
| Si5324.ProgramSi5324 | data_and_seq_send/echo_server/src/si5324.c:159-189 | The loop writes the entries in order and stops at the first that does not succeed |
| Si5324.TransferTried | data_and_seq_send/echo_server/src/si5324.c:182-186 | A transfer that does not succeed leaves the slaves as they were or as if it had |
| Si5324.MuxFirst | data_and_seq_send/echo_server/src/si5324.c:142-189 | On success, and whenever the chip at 0x68 has changed at all, the multiplexer at 0x74 has channel 0x10 selected; no other slave changes |
| Si5324.ProgrammedPrefix | data_and_seq_send/echo_server/src/si5324.c:178-188 | What reaches the chip is a prefix of the table: the successful entries and at most the failed one; success if and only if all |
| Si5324.AppliedRegisters | data_and_seq_send/echo_server/src/si5324.c:178-187 | The chip's registers are those of before overwritten by the entries, and no other slave changes |
| Si5324.TableDistinct | data_and_seq_send/echo_server/src/si5324.c:95-139 | 43 entries with distinct registers, all fitting a byte |
| Si5324.EntryHeld | data_and_seq_send/echo_server/src/si5324.c:178-187 | A register in the table ends up with its value |
| Si5324.OthersKept | data_and_seq_send/echo_server/src/si5324.c:178-187 | A register not in the table keeps its contents |
| Si5324.ProgramExactly | data_and_seq_send/echo_server/src/si5324.c:159-189 | Success if and only if 43 entries were written, and then 0x10 is selected at 0x74 and the chip at 0x68 holds the table; otherwise the slaves are at a prefix |
| SeqSend.SeqRecvCallback | data_and_seq_send/echo_server/src/seq_send.c:25-68 | The words printed are the packing of the tot_len modulo 256 bytes in memory from the payload on; a null packet closes the connection |
| SeqSend.PackedWord | data_and_seq_send/echo_server/src/seq_send.c:45-60 | Word j is the number with the bytes 4j to 4j+3, highest first, and 255 for those behind the end |
| SeqSend.PrintedWords | data_and_seq_send/echo_server/src/seq_send.c:42-65 | For every tot_len the call prints (tot_len modulo 256 + 3) / 4 words that unpack to the first tot_len modulo 256 bytes, given in numbers |
| SeqSend.UnpackPacked | data_and_seq_send/echo_server/src/seq_send.c:45-65 | The big-endian bytes of the words are the packet followed by 0 to 3 bytes 0xFF |
| SeqSend.UnpackTruncated | data_and_seq_send/echo_server/src/seq_send.c:45-65 | Unpacking and truncating gives the packet back |
| SeqSend.PackedLength | data_and_seq_send/echo_server/src/seq_send.c:45 | A packet takes a quarter of its length in words, rounded up |
| SeqSend.PackedConcat | data_and_seq_send/echo_server/src/seq_send.c:45-65 | Packing distributes over a split at a word boundary |
| SeqSend.PackedEqual | data_and_seq_send/echo_server/src/seq_send.c:47-58 | Two packets give the same words if and only if they agree once padded |
| SeqSend.PacketComplete | data_and_seq_send/echo_server/src/seq_send.c:42 | The packet can be read off the words if and only if it is shorter than 256 bytes |
| Timers.Platform.TimerCallback | data_and_seq_send/echo_server/src/platform_zynq.c:92-138 | One interrupt of the nested dividers in every configuration |
| Timers.Platform.AwaitDhcp | data_and_seq_send/echo_server/src/main.c:109 | A wait for an address starts the countdown afresh and touches nothing else |
| Timers.TickedClosedForm | data_and_seq_send/echo_server/src/platform_zynq.c:102-136 | One callback takes the closed form for n interrupts to the one for n+1 |
| Timers.RunsByCalendar | data_and_seq_send/echo_server/src/platform_zynq.c:92-138 | In every run all counters, flags and calls are those of the calendar: dhcp_timer (n/2)%120, ResetRxCntr n%400, fine timer every 2nd, coarse every 240th, reset every 400th interrupt |
| Timers.CalendarCounts | data_and_seq_send/echo_server/src/platform.c:56-84 | After n interrupts n/2 fine, n/240 coarse and n/400 reset calls, as configured |
| Timers.DhcpTimeout | data_and_seq_send/echo_server/src/main.c:109-114 | The wait for an address does not give up within 46 interrupts, always has after 48, and at 47 depends on the parity of its start |

## Left out

- VHDL text that carries no logic: library clauses, component declarations, whitespace, and the comments with the decoded characters, where a control character inside a signature would end the comment line.
- Reading and writing files and the argument check of the two scripts; a file is the list of its lines.
- TriggeredDetector.RunRefines: begins with the first reset; of runs before it only `TriggeredDetector.RunSettles` speaks.
- The older detectors in the top directory, `SequenceFinder.vhd`, `SequenceFinderController.vhd` and `on_off.vhd`, and the generated examples: hand-written variants with nothing the generators do not cover.
- Synthesized hardware: glitches, set-up times and latches. The meaning of the emitted VHDL is that of its simulation.
- TriggeredTheorems.AgreeIff: like the other results on streams, is about signatures without zero bytes, which stand for no data, or with one at the start; the refinement of the simulation to rows is about all.
- TriggeredFactors.FactorIff: asks, where it claims that a part is lost, that the signature can be parted there (`Partable`); without that it depends on both rows together. The half for prefixes and single bytes is proved for all.
- TriggeredFactors.SuffixIff: asks the same of suffixes of two or more bytes that are not the whole.
- Scripts.TriggeredLineDetected: is about lines without zero bytes.
- `xiicps.h` and the driver behind it are not part of this model: the controller carries out one transfer at a time, and the event word is reduced to the three bits the handler tests.
- I2cHistory.HistoryRoundTripIff: like the other round trips, assumes a controller that reports completions only of the transfer in progress; exactly when a call succeeds or fails is proved without it.
- I2cAccess.XiicLib.I2cReadData: the bytes appear in the caller's buffer when the call returns, not one by one during the transfer.
- I2C set-up (GPIO writes, interrupt controller) is one step that succeeds or fails, and the wait for an idle bus always ends.
- Si5324.TransferTried: slaves take the bytes of a transfer as a whole; one broken off between two bytes is not modelled.
- Si5324.MuxInit: gives the buffer the one byte it needs, where the source declares it with length zero.
- SeqSend.SeqRecvCallback: asks that the bytes the loop reads are there in memory; what lies behind a short first buffer is not modelled.
- Real time in milliseconds, and the overflow of `dhcp_timoutcntr` after 2^32 interrupts without a new wait.
- `main.c` beyond its use of the timer, `dispatch.c`, `data_send.c`, `sfp.c`, `iic_phyreset.c`, the other platforms, lwIP and the board support package: fixed sequences of calls into code outside the repository.
