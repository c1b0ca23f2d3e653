# A verified model of the peer-to-peer battle protocol core

Two peers play a turn-based creature battle over UDP. This project models the sequential core
of that program in Dafny and proves what each part promises:

- **The line codec** (`messages.dfy`, module `Messages`). A message is written as one
  `key: value` line per field, with the lines joined by newlines. The parser keeps the
  non-blank stripped lines, splits each at its first colon, strips both halves and lets a
  later key win. `make_ack` builds the acknowledgment. Proved: the layout, the parser's
  filtering and splitting rules, and the round trip `parse(serialize(d))` for fields that are
  single trimmed lines.
- **The creature table** (`pokemon.dfy`, module `Pokemon`). The row loop of `load_csv`
  builds the table, keyed by `strip().lower()` of the row's name. `get_pokemon` looks a name
  up the same way. Proved:
  - which rows are kept;
  - the last kept row with a key wins;
  - every stored record is found again from its name in any case and padding.
- **The reliability layer** (`reliability.dfy`, class `ReliabilityLayer`). It holds the
  sequence counter, the pending table, `received_ack`, and one pass of the retransmission
  checker with the clock as a parameter. Proved:
  - sequence numbers are fresh and never 0;
  - at most one entry exists per number;
  - the pass retries, keeps or gives up each entry as the code decides;
  - retries never pass the ceiling;
  - an entry is resent at most `max_retries - retries` times.
- **The peer node** (`network.dfy`, class `PeerNode`). It covers destination resolution in
  `send` and the body of the receive loop for one datagram, returned as a list of actions.
  Proved:
  - untyped datagrams are dropped;
  - ACKs are only forwarded;
  - numbered messages are acknowledged before the duplicate check;
  - dispatch happens at most once per sequence number;
  - the peer address is latched once.
- **The battle** (`battle.dfy`, classes `BattleState` and `Handler`). It covers HP
  clamping, `is_over`, the move table, stat selection, and every transition of the message
  handler. Each transition is a method on the handler, proved equal to a function of the
  state before the message. Proved:
  - what each message type does to HP, the turn flag and the outbound messages;
  - outside setup and resolution, HP never rises and never goes below 0;
  - two peers that agree on the creatures end a confirmed turn with the same HP figure.

`common.dfy` holds `Option` and addresses. `pystr.dfy` (module `PyStr`) models the Python
string operations the code relies on:

- `strip` and `lower` (ASCII letters);
- `int()` on strings, and `str()` on integers;
- `int(x or 0)`.

Design points:

- Python dicts that are sent keep their insertion order as `seq<(string, Value)>`.
- Parsed messages are `map<string, string>`.
- The pending table's iteration order is kept beside it as `order: seq<int>`.
- An exception raised inside the handler thread (a failing `int()`, or `.lower()` on
  `None`) ends the handler. The model therefore returns early, keeping the effects already
  done.

Points where the code behaves differently from what its message names suggest, and the model
follows the code:

- A checker entry is due when `now - last_sent >= timeout`, so an entry whose timeout has
  exactly elapsed is already due.
- `HANDSHAKE_RESPONSE` only prints the seed; nothing is recorded.
- A spectator's `SPECTATOR_REQUEST` does latch the node's peer address when none is set.
- A setup naming an unknown creature leaves an empty creature with 100 HP; there is no
  placeholder record. Its stats then read as 50.
- `CALCULATION_CONFIRM` is sent only to the attacker, so only the attacker's turn flag
  flips in a turn. `TurnKeepsPeersInSync` proves the defender's flag is unchanged.
- After `GAME_OVER` the handler goes on processing turn messages as before.

## Model

| member | source | states |
|---|---|---|
| PyStr.Strip | messages.py:16 | the stripped string has no whitespace at either end and is no longer than the input |
| PyStr.StripPadded | messages.py:22 | whitespace added around a string does not change what `strip()` returns |
| PyStr.StripLowerCommute | pokemon.py:22 | `strip().lower()` equals `lower().strip()` |
| PyStr.NormalizeIdempotent | pokemon.py:22 | normalising a stored key changes nothing |
| PyStr.NormalizeInsensitive | pokemon.py:51 | names differing only in letter case and surrounding whitespace give the same key |
| PyStr.IntRoundTrip | network.py:77 | `int(str(i)) == i` for every integer |
| PyStr.ParseIntRejects | network.py:76-79 | a trimmed unsigned string with a non-digit makes `int()` raise |
| PyStr.IntOrZero | pokemon.py:33 | `int(s or 0)`: the empty string reads as 0, `str(n)` reads back as `n`, and whitespace alone is refused (it is truthy, so `int()` sees it) |
| Messages.Get | reliability.py:47 | `m.get(k)` is absent exactly when no entry has key `k` |
| Messages.SerializeMessage | messages.py:5-12 | the loop's output is `Serialized(d)`, one line per entry joined by newlines |
| Messages.SplitJoin | messages.py:12 | cutting a newline join of break-free lines at its line breaks gives the lines back |
| Messages.SerializedLines | messages.py:6-12 | the serialized text holds exactly one `key: value` line per entry, in order, with no trailing newline |
| Messages.ParseMessage | messages.py:14-23 | the loop's output is `Parsed(raw)`: the non-blank stripped lines folded left to right |
| Messages.NonBlank | messages.py:16 | every line kept is non-empty and has no surrounding whitespace |
| Messages.StripKeepsColon | messages.py:19 | stripping a line neither adds nor removes its colon |
| Messages.ParseIgnoresLine | messages.py:16-20 | a blank line, or one without a colon, leaves the parsed map as it is, wherever it stands |
| Messages.IndexOf | messages.py:21 | the index found is that of the first colon |
| Messages.PutLine | messages.py:21-22 | a line `k:v` with a colon-free `k` stores `strip(k)` to `strip(v)`; `v` may itself hold colons |
| Messages.ParseLastLine | messages.py:21-22 | a last line `k:v` overrides whatever earlier lines stored under `strip(k)` |
| Messages.AsStringsGet | messages.py:22 | the receiver finds under a key the rendered value of the last entry with that key |
| Messages.RoundTrip | messages.py:5-23 | for fields that are single trimmed lines with colon-free keys, `parse(serialize(d))` is `d` with values rendered, later keys winning |
| Messages.IntFieldReads | network.py:77 | a missing or empty field reads as 0; a field holding `str(n)` reads as `n` |
| Messages.AckRoundTrip | messages.py:25-26 | `make_ack(n)` is parsed back as exactly `{message_type: ACK, ack_number: str(n)}`, and the number reads as `n` |
| Pokemon.ConvertRowFails | pokemon.py:28-44 | a row is skipped as bad exactly when one of its six number cells fails `int()` |
| Pokemon.ConvertRowValues | pokemon.py:31-42 | cells holding decimal numbers are stored as exactly those numbers |
| Pokemon.LoadRows | pokemon.py:15-45 | the row loop builds `Loaded(rows)` |
| Pokemon.LoadedWellKeyed | pokemon.py:21-31 | every key is non-empty and is the normalised name of the record under it |
| Pokemon.SkippedRow | pokemon.py:25-44 | a row with an empty key or a bad number adds nothing, wherever it stands |
| Pokemon.LastRowWins | pokemon.py:31 | the last kept row with a key decides the record stored under it |
| Pokemon.LoadedKeysFromRows | pokemon.py:19-31 | every key in the table comes from a kept row |
| Pokemon.GetPokemon | pokemon.py:48-51 | `None` gives `None`; a name is found exactly when its normalised form is a key, and yields that record |
| Pokemon.GetPokemonInsensitive | pokemon.py:51 | the lookup ignores letter case and surrounding whitespace |
| Pokemon.StoredRecordFound | pokemon.py:21-51 | every stored record is found again from its own name in any case and padding |
| Reliability.ReliabilityLayer.constructor | reliability.py:22-30 | a new layer has nothing pending and its counter at 1 |
| Reliability.ReliabilityLayer.NextSequence | reliability.py:40-44 | returns the counter and increments it; the number is at least 1 and was never handed out before |
| Reliability.Stamp | reliability.py:47-51 | a non-ACK message without `sequence_number` gets the counter and is then sent under exactly that number; every other field, the type included, is kept; any other message is sent as it is |
| Reliability.AckIsNotTracked | reliability.py:47-51 | an ACK is never stamped and is sent under number 0 |
| Reliability.SeqOf | reliability.py:51 | a message without `sequence_number` is sent under 0, and for every value but `None` the number the layer tracks is the number the receiver reads from the rendered field |
| Reliability.ReliabilityLayer.SendWithReliability | reliability.py:46-61 | the payload is transmitted once; a nonzero number leaves exactly that payload and dest pending with 0 retries and `now`; number 0 adds nothing; a bad number raises before sending |
| Reliability.Enqueue | reliability.py:61 | inserting a key keeps the insertion order free of repeats |
| Reliability.ReliabilityLayer.ReceivedAck | reliability.py:63-67 | exactly `pending[n]` is removed, if present; the counter is untouched |
| Reliability.AckKeepsTable | reliability.py:63-67 | removing an acknowledged entry keeps the table invariant and leaves every other entry as it was |
| Reliability.Without | reliability.py:95-98 | removing keys from the order keeps exactly the others, without repeats |
| Reliability.WithoutKeepsOrder | reliability.py:95-98 | the kept keys stand in their original relative order |
| Reliability.WithoutTwice | reliability.py:63-67 | removing keys twice is removing them once; a repeated ACK is a no-op |
| Reliability.ReliabilityLayer.CheckerPass | reliability.py:76-98 | one pass sends the retried entries, leaves `Checked(pending, now)` and removes the given-up keys from the order |
| Reliability.CheckTable | reliability.py:77-98 | the three loops together give the retransmissions, the checked table and the new order |
| Reliability.ScanTable | reliability.py:80-88 | the first loop bumps retried entries and lists the retried entries and the given-up keys |
| Reliability.TransmitAll | reliability.py:90-94 | the send loop emits `Transmits` of the retried entries: each entry's own payload to its own dest, once each, in order |
| Reliability.DeleteAll | reliability.py:95-98 | the deletion loop drops exactly the given-up keys |
| Reliability.RetriedEntries | reliability.py:82-85 | every retried entry has `last_sent = now` and between 1 and the ceiling retries |
| Reliability.Abandoned | reliability.py:87-88 | the given-up keys are exactly the due entries at the ceiling, each once |
| Reliability.CheckerDecision | reliability.py:80-98 | an entry that is not due stays and is not resent; a due entry under the ceiling is bumped and resent verbatim; a due entry at the ceiling is removed and not resent |
| Reliability.RetriedMembers | reliability.py:82-85 | an entry is retried exactly when it is due and under the ceiling |
| Reliability.CheckedKeepsTable | reliability.py:82-98 | a pass keeps the table invariant: numbers nonzero, one entry per number, retries within the ceiling |
| Reliability.ResendsBounded | reliability.py:82-88 | over any series of passes an entry is resent at most `max_retries - retries` times, so at most `1 + max_retries` transmissions in all |
| Network.PeerNode.constructor | network.py:24-28 | a new node has no peer address and no processed numbers |
| Network.PeerNode.Send | network.py:48-53 | the destination is the given address or else the peer's; with neither, nothing is sent; otherwise the reliability layer is called exactly once |
| Network.PeerNode.Receive | network.py:70-110 | the step updates the node and returns the actions of `Receipt`; pending loses exactly the forwarded ACK numbers |
| Network.PeerNode.ForwardAck | network.py:81-89 | an ACK with a nonzero number removes exactly that entry from pending; the node is unchanged |
| Network.PeerNode.Deliver | network.py:91-110 | any other typed message is acknowledged, deduplicated, latches the peer and is dispatched as `Receipt` gives, forwarding no ACK |
| Network.UntypedDropped | network.py:70-73 | an empty or untyped datagram changes nothing and causes nothing |
| Network.AckOnlyForwarded | network.py:81-89 | an ACK is forwarded exactly when its number is nonzero; it is never acknowledged or dispatched, and the node is unchanged |
| Network.NumberedMessage | network.py:91-103 | a positive number is acknowledged first, duplicate or not; it is dispatched and recorded exactly when it is new |
| Network.UnnumberedMessage | network.py:91-110 | a message numbered 0 (missing or unreadable included) bypasses deduplication and is dispatched |
| Network.ReceiptMonotone | network.py:99-107 | the processed set only grows; the peer address is set once, to the sender of a session message |
| Network.DispatchRecords | network.py:99-103 | a dispatched positive number was new and is recorded |
| Network.AtMostOnceDispatch | network.py:91-110 | over any series of datagrams, a positive number is dispatched at most once, and never once processed |
| Network.AckReachesSender | network.py:81-97 | the ACK a node sends for `s` reaches the sender as exactly one forward of `s` |
| Battle.MoveNamesLower | battle.py:72-81 | every move table key is already lower case |
| Battle.LookupMoveAnyCase | battle.py:83-84 | lookup ignores letter case; a table move is found from any spelling; an unknown one is 50-power physical normal |
| Battle.MatchupByCategory | battle.py:160-165 | physical moves (unknown ones included) use attack against defense, others sp_attack against sp_defense; a missing stat counts 50 |
| Battle.EffectivenessAnyCase | battle.py:86-100 | the type chart is read ignoring the case of the move's type; no chart means 1.0 |
| Battle.DamageDependsOnMatchup | battle.py:160-170 | two peers with the same stats, chart and formula compute the same damage |
| Battle.Judge | battle.py:61-67 | over exactly when a side is at or below 0; my side is checked first, so I lose when both are down |
| Battle.BattleState.constructor | battle.py:36-51 | peer name defaults to "Peer"; HP comes from each creature, 100 when absent; the peer's turn; five uses of each boost |
| Battle.FreshBattleRunning | battle.py:44-48 | for any names and creatures, a fresh battle is running iff both creatures start above 0 HP; creatures without an `hp` stat start at 100, so such a battle always starts running |
| Battle.BattleState.ApplyDamageToPeer | battle.py:53-55 | the peer's HP becomes `max(0, hp - dmg)` and nothing else changes |
| Battle.BattleState.ApplyDamageToMe | battle.py:57-59 | my HP becomes `max(0, hp - dmg)` and nothing else changes |
| Battle.Handler.constructor | battle.py:153-157 | no attack has been received or announced yet |
| Battle.Handler.Handle | battle.py:102-256 | handling a message leaves the state, the remembered attack and the replies that `Handled` gives |
| Battle.Handler.HandleSetup | battle.py:124-143 | the setup branch leaves the state `OnSetup` gives |
| Battle.Handler.HandleAttackAnnounce | battle.py:147-153 | the attack branch remembers the attack and replies as `OnAttackAnnounce` gives |
| Battle.Handler.HandleDefenseAnnounce | battle.py:155-182 | the defense branch damages the peer and reports as `OnDefenseAnnounce` gives |
| Battle.Handler.HandleReport | battle.py:184-233 | the report branch confirms or resolves as `OnReport` gives |
| Battle.Handler.HandleConfirm | battle.py:235-242 | the confirm branch flips the turn and announces the end as `OnConfirm` gives |
| Battle.Handler.HandleResolution | battle.py:244-255 | the resolution branch adopts the HP figure and acknowledges as `OnResolution` gives |
| Battle.RequestAnswered | battle.py:108-121 | whatever move was announced, only the host answers: a handshake with seed `int(time.time()) & 0x7fffffff` (the clock modulo 2^31), a spectator with seed 0; nothing else changes |
| Battle.SetupFromDatabase | battle.py:125-143 | without usable creature data, the peer's name is the message's (or `None`), and its creature and HP come from the database record, or are none and 100 when the record or the name is missing; nothing else changes |
| Battle.SetupFromMessage | battle.py:129-143 | a creature carried in the message wins over the database, HP included |
| Battle.AttackRemembered | battle.py:147-153 | an announcement is answered with DEFENSE_ANNOUNCE and remembered with its number; a bad number stops the handler first |
| Battle.ReportFields | battle.py:173-181 | the report carries its type, the attacker, the move, my HP, the damage and the peer's HP |
| Battle.ReportReadBack | battle.py:173-182 | a report of single trimmed lines reaches the defender with attacker, move, damage and HP intact |
| Battle.DefenseAnnounceReports | battle.py:155-182 | the peer loses the damage (at least 1 HP, never below 0); nothing else changes; the one report carries that damage and the new peer HP |
| Battle.ReportOfOpponentAttack | battle.py:190-218 | equal damage is taken and confirmed; unequal damage leaves HP and requests resolution with the local damage and my HP |
| Battle.ReportOfOwnAttack | battle.py:219-233 | nothing changes; confirmed exactly when the reported HP equals the peer's HP, otherwise resolution with the peer's HP |
| Battle.ConfirmPassesTurn | battle.py:235-242 | the turn flips and nothing else changes; one GAME_OVER exactly when a side is down, with `is_over`'s winner and loser |
| Battle.ResolutionAdopted | battle.py:244-255 | the figure goes to the peer's HP when the attacker is my creature, to mine otherwise; a raw ACK of the request's number goes back and reads back as that number |
| Battle.HpOnlyFalls | battle.py:146-242 | outside setup and resolution, no message raises either HP or takes it below 0, and only HP and the turn flag change |
| Battle.TurnKeepsPeersInSync | battle.py:155-218 | peers that agree on the creatures and the defender's HP end the turn with equal HP figures; the defender confirms and its turn flag stays |

## Left out

- Sockets, `sendto`/`recvfrom`, the non-blocking poll and its sleeps, the Windows reset
  special case, threads, locks, `shutdown` and `join`. Sends are returned as values and each
  step runs atomically; interleavings of handler threads and the checker are not modelled.
- The clock: `time.time()` is a parameter (`now` in the layer, `clock` in the handler), and
  the checker's 50 ms polling is not modelled; one pass is one call.
- UTF-8 encoding and decoding with `errors="ignore"`: the codec works on strings.
- `repr()` of dict and list values in `serialize_message`: values are strings, integers or
  `None` only. This is why sending a BATTLE_SETUP with its creature dict is not modelled;
  main.py is not part of this model.
- Messages.ParseMessage: `splitlines()` is modelled as a cut at every line-break character.
  This differs from Python in three places: `\r\n` yields an extra blank line, the empty
  text yields one blank line rather than none, and a trailing break yields a final blank
  line. The parser drops blank lines, so the parsed dict is the same.
- PyStr.Lower: only ASCII letters are folded; Python's full Unicode case mapping is not
  modelled.
- PyStr.ParseInt: underscores and non-ASCII digits, which Python's `int()` accepts, are
  refused.
- CSV reading: opening the file, the BOM and `DictReader` are left out. The row loop takes
  the rows as maps, and a cell `DictReader` fills with `None` counts as missing.
- `compute_damage` and `round`: floating-point arithmetic is abstract (`Env.damage`), known
  only to return at least 1.
- `float()` in `get_effectiveness` and `str()` of the multiplier are also abstract
  (`Env.parseFloat`, `Env.showFloat`).
- `ast.literal_eval` of the creature a peer sends is abstract (`Env.decodeCreature`), with
  `None` standing for a failure or a non-dict or empty result.
- Battle.HpOnlyFalls: BATTLE_SETUP and RESOLUTION_REQUEST take HP figures from the peer
  and can set any value, negative ones included, so they are excluded from the statement.
- Logging, and the print-only branches of the handler (HANDSHAKE_RESPONSE, GAME_OVER,
  CHAT_MESSAGE): they change no state and send nothing.
- Reliability.ResendsBounded: it counts resends over consecutive checker passes. A send or
  an ACK between passes only adds or removes whole entries, and the bound is stated per
  entry.
- Reliability.ReliabilityLayer.CheckerPass: timestamps and the timeout are exact `real`
  numbers, whereas Python compares floats in `now - pm.last_sent >= self.timeout`; rounding
  in that subtraction, which can move an entry across the boundary, is not modelled.
- `PendingMessage` object identity: entries are values, and the retransmission list holds
  the bumped entries.
