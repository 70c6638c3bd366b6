/**
  The on-chain watcher of src/watcher.js. Purchase logs are parsed and
  parked in a `pending` Map keyed by transaction hash; on every new block
  the entries with enough confirmations are announced, and an entry is
  deleted only once its announcement went through.

  The JavaScript Map is modelled as the sequence of its slots in insertion
  order (`Map.set` on a present key keeps its place), so the order in which
  the block handler walks its snapshot is part of the model. The parser and
  `announce` are oracles: a `ParseResult` per log, and per block a
  predicate telling which announcements are delivered.
*/
module Watcher {
  import opened Wrappers
  import opened Decimal
  import opened Js
  import opened Utils

  // ---------------------------------------------------------------- explorerTx

  /** The explorer base with exactly one '/' at its end. */
  function Directory(base: string): (d: string)
    requires base != ""
    ensures base <= d && d[|d| - 1] == '/'
    ensures |base| <= |d| <= |base| + 1
    ensures |d| == |base| <==> base[|base| - 1] == '/'
  {
    if base[|base| - 1] == '/' then base else base + "/"
  }

  /** `explorerTx(tx)`; None is the `undefined` returned when no explorer base is configured. */
  function ExplorerTx(base: string, tx: string): (r: Option<string>)
    ensures r.None? <==> base == ""
    ensures r.Some? ==> r.value == Directory(base) + "tx/" + tx
  {
    if base == "" then None else Some(Directory(base) + "tx/" + tx)
  }

  /** Whether the configured base already ends in '/' makes no difference to the link. */
  lemma ExplorerTxSlash(base: string, tx: string)
    requires base != "" && base[|base| - 1] != '/'
    ensures ExplorerTx(base + "/", tx) == ExplorerTx(base, tx)
  {
    assert (base + "/")[|base + "/"| - 1] == '/';
  }

  /** Different transactions get different links: the hash is the link's suffix after "tx/". */
  lemma {:induction false} ExplorerTxInjective(base: string, tx1: string, tx2: string)
    requires base != "" && ExplorerTx(base, tx1) == ExplorerTx(base, tx2)
    ensures tx1 == tx2
  {
    var prefix := Directory(base) + "tx/";
    assert ExplorerTx(base, tx1).value == prefix + tx1;
    assert (prefix + tx1)[|prefix|..] == tx1;
    assert (prefix + tx2)[|prefix|..] == tx2;
  }

  // ---------------------------------------------------------------- event arguments

  /**
    The decoded event arguments of an ethers `Result`: readable by name
    (`args.buyer`) and by position (`args[0]`).
  */
  datatype LogArgs = LogArgs(named: map<string, JsValue>, positional: seq<JsValue>)

  function Field(args: LogArgs, name: string): JsValue
  {
    if name in args.named then args.named[name] else Undefined
  }

  function Position(args: LogArgs, i: nat): JsValue
  {
    if i < |args.positional| then args.positional[i] else Undefined
  }

  /** What `parseLog` gave: it threw, or returned a value (None is the `null` of an unmatched log). */
  datatype ParseResult = ParseError | Parsed(value: Option<LogArgs>)

  /** A `pending` value: `{ blockNumber, parsed }`. */
  datatype Pending = Pending(blockNumber: int, parsed: Option<LogArgs>)

  /** One entry of the `pending` Map. */
  datatype Slot = Slot(txHash: string, item: Pending)

  /** The argument of `announce`. */
  datatype AnnounceRequest = AnnounceRequest(buyer: JsValue, amountTokenStr: string, txHash: string)

  /**
    The body of the `try` in the block handler up to the `announce` call:
    None is the TypeError of reading `.args` from a `null` parse result.
  */
  function Request(txHash: string, p: Pending, dec: int): (r: Option<AnnounceRequest>)
    ensures r.None? <==> p.parsed.None?
    ensures r.Some? ==> r.value.txHash == txHash
    ensures r.Some? && !IsNullish(Field(p.parsed.value, "buyer")) ==> r.value.buyer == Field(p.parsed.value, "buyer")
    ensures r.Some? && IsNullish(Field(p.parsed.value, "buyer")) ==> r.value.buyer == Position(p.parsed.value, 0)
    ensures r.Some? && !IsNullish(Field(p.parsed.value, "amountToken")) ==>
      r.value.amountTokenStr == FormatUnits(ToStr(Field(p.parsed.value, "amountToken")), dec)
    ensures r.Some? && IsNullish(Field(p.parsed.value, "amountToken")) ==>
      r.value.amountTokenStr == FormatUnits(ToStr(Position(p.parsed.value, 1)), dec)
  {
    match p.parsed
    case None => None
    case Some(args) =>
      var buyer := Coalesce(Field(args, "buyer"), Position(args, 0));
      var amountToken := Coalesce(Field(args, "amountToken"), Position(args, 1));
      Some(AnnounceRequest(buyer, FormatUnits(ToStr(amountToken), dec), txHash))
  }

  /** A uint256 amount is announced as its decimal rendering scaled by 10^dec. */
  lemma AnnouncedAmount(txHash: string, p: Pending, dec: nat, n: nat)
    requires p.parsed.Some? && Coalesce(Field(p.parsed.value, "amountToken"), Position(p.parsed.value, 1)) == Num(n)
    ensures Request(txHash, p, dec).Some?
    ensures Request(txHash, p, dec).value.amountTokenStr == Scale(n, dec)
    ensures ReadScaled(Request(txHash, p, dec).value.amountTokenStr, dec) == Some(n)
  {
    FormatUnitsOfDecimal(n, dec);
    ScaleRoundTrip(n, dec);
  }

  // ---------------------------------------------------------------- confirmations

  /** A new block: its number, and which announcements go through while it is handled. */
  datatype Block = Block(number: int, delivered: AnnounceRequest -> bool)

  /** `bn - item.blockNumber >= CONF` */
  predicate Eligible(p: Pending, bn: int, conf: int): (b: bool)
    ensures conf <= 0 && p.blockNumber <= bn ==> b
    ensures b && conf > 0 ==> p.blockNumber < bn
  {
    bn - p.blockNumber >= conf
  }

  /** Confirmations only grow: an entry eligible at one height is eligible at every later one. */
  lemma EligibleMonotone(p: Pending, bn: int, bn': int, conf: int)
    requires Eligible(p, bn, conf) && bn <= bn'
    ensures Eligible(p, bn', conf)
  {
  }

  /**
    The `announce` call the block handler makes for a slot: none when the
    entry lacks confirmations or its arguments cannot be read.
  */
  function CallFor(s: Slot, bn: int, conf: int, dec: int): (r: Option<AnnounceRequest>)
    ensures r.Some? <==> Eligible(s.item, bn, conf) && s.item.parsed.Some?
  {
    if Eligible(s.item, bn, conf) then Request(s.txHash, s.item, dec) else None
  }

  /** The block handler deletes this slot: it is announced and `announce` succeeded. */
  predicate Delivered(s: Slot, b: Block, conf: int, dec: int)
  {
    var call := CallFor(s, b.number, conf, dec);
    call.Some? && b.delivered(call.value)
  }

  /** `CallFor` at one block height, as the function the handler applies to each slot. */
  function Caller(bn: int, conf: int, dec: int): Slot -> Option<AnnounceRequest>
  {
    s => CallFor(s, bn, conf, dec)
  }

  /** The slot test "announced, and the announcement went through". */
  function Gone(call: Slot -> Option<AnnounceRequest>, delivered: AnnounceRequest -> bool): Slot -> bool
  {
    s => call(s).Some? && delivered(call(s).value)
  }

  lemma GoneAt(call: Slot -> Option<AnnounceRequest>, delivered: AnnounceRequest -> bool, s: Slot)
    ensures Gone(call, delivered)(s) <==> call(s).Some? && delivered(call(s).value)
  {
  }

  /** `Delivered` for one block, as a slot test. */
  function Deliverer(b: Block, conf: int, dec: int): (gone: Slot -> bool)
    ensures forall s :: gone(s) == Delivered(s, b, conf, dec)
  {
    Gone(Caller(b.number, conf, dec), b.delivered)
  }

  /** The entries of a map that a slot test `gone` does not remove. */
  function Survivors(items: map<string, Pending>, gone: Slot -> bool): (r: map<string, Pending>)
    ensures r.Keys <= items.Keys
    ensures forall h :: h in r ==> r[h] == items[h]
    ensures forall h :: h in items ==> (h !in r <==> gone(Slot(h, items[h])))
  {
    map h | h in items && !gone(Slot(h, items[h])) :: items[h]
  }

  /** The pending entries after one block, as a map. */
  function AfterBlock(items: map<string, Pending>, b: Block, conf: int, dec: int): map<string, Pending>
  {
    Survivors(items, Deliverer(b, conf, dec))
  }

  /**
    One block removes exactly the delivered entries: an entry without enough
    confirmations is untouched, an eligible one goes iff it is announced.
  */
  lemma AfterBlockEffect(items: map<string, Pending>, b: Block, conf: int, dec: int)
    ensures AfterBlock(items, b, conf, dec).Keys <= items.Keys
    ensures forall h :: h in AfterBlock(items, b, conf, dec) ==> AfterBlock(items, b, conf, dec)[h] == items[h]
    ensures forall h :: h in items && !Eligible(items[h], b.number, conf) ==> h in AfterBlock(items, b, conf, dec)
    ensures forall h :: h in items ==> (h !in AfterBlock(items, b, conf, dec) <==> Delivered(Slot(h, items[h]), b, conf, dec))
  {
  }

  /** The pending entries after a run of blocks handled one after the other. */
  function AfterBlocks(items: map<string, Pending>, blocks: seq<Block>, conf: int, dec: int): map<string, Pending>
  {
    if blocks == [] then items else AfterBlocks(AfterBlock(items, blocks[0], conf, dec), blocks[1..], conf, dec)
  }

  /** Across blocks the watcher only ever removes entries, and never alters one it keeps. */
  lemma {:induction false} AfterBlocksShrinks(items: map<string, Pending>, blocks: seq<Block>, conf: int, dec: int)
    ensures AfterBlocks(items, blocks, conf, dec).Keys <= items.Keys
    ensures forall h :: h in AfterBlocks(items, blocks, conf, dec) ==> AfterBlocks(items, blocks, conf, dec)[h] == items[h]
  {
    if blocks != [] {
      AfterBlocksShrinks(AfterBlock(items, blocks[0], conf, dec), blocks[1..], conf, dec);
    }
  }

  /**
    Retry: an entry stays pending, unchanged, through every block in which
    it is not delivered (too few confirmations, a `null` parse result, or
    a failed announcement).
  */
  lemma {:induction false} PendingUntilDelivered(items: map<string, Pending>, h: string, blocks: seq<Block>, conf: int, dec: int)
    requires h in items
    requires forall i :: 0 <= i < |blocks| ==> !Delivered(Slot(h, items[h]), blocks[i], conf, dec)
    ensures h in AfterBlocks(items, blocks, conf, dec)
    ensures AfterBlocks(items, blocks, conf, dec)[h] == items[h]
  {
    if blocks != [] {
      var next := AfterBlock(items, blocks[0], conf, dec);
      assert !Deliverer(blocks[0], conf, dec)(Slot(h, items[h]));
      assert forall i :: 0 <= i < |blocks[1..]| ==> blocks[1..][i] == blocks[i + 1];
      PendingUntilDelivered(next, h, blocks[1..], conf, dec);
    }
  }

  /** A log whose parse result was `null` is never announced and never leaves `pending`. */
  lemma NullParseStaysPending(items: map<string, Pending>, h: string, blocks: seq<Block>, conf: int, dec: int)
    requires h in items && items[h].parsed.None?
    ensures h in AfterBlocks(items, blocks, conf, dec)
  {
    PendingUntilDelivered(items, h, blocks, conf, dec);
  }

  lemma TailIndex(blocks: seq<Block>, i: nat)
    requires 0 < i < |blocks|
    ensures blocks[1..][i - 1] == blocks[i]
  {
  }

  /** A delivered entry leaves the map in that block. */
  lemma DeliveredLeaves(items: map<string, Pending>, h: string, b: Block, conf: int, dec: int)
    requires h in items && Delivered(Slot(h, items[h]), b, conf, dec)
    ensures h !in AfterBlock(items, b, conf, dec)
  {
    assert Deliverer(b, conf, dec)(Slot(h, items[h]));
  }

  /** Once an entry is delivered in some block it is gone for good. */
  lemma {:induction false} GoneOnceDelivered(items: map<string, Pending>, h: string, blocks: seq<Block>, i: nat, conf: int, dec: int)
    requires h in items && i < |blocks|
    requires Delivered(Slot(h, items[h]), blocks[i], conf, dec)
    ensures h !in AfterBlocks(items, blocks, conf, dec)
  {
    var next := AfterBlock(items, blocks[0], conf, dec);
    if i == 0 {
      DeliveredLeaves(items, h, blocks[0], conf, dec);
    } else if h in next {
      assert next[h] == items[h];
      TailIndex(blocks, i);
      GoneOnceDelivered(next, h, blocks[1..], i - 1, conf, dec);
    }
    AfterBlocksShrinks(next, blocks[1..], conf, dec);
  }

  // ---------------------------------------------------------------- the pending Map

  /** No hash occurs in two slots. */
  predicate DistinctHashes(es: seq<Slot>)
  {
    forall i, j :: 0 <= i < j < |es| ==> es[i].txHash != es[j].txHash
  }

  predicate Absent(es: seq<Slot>, h: string)
  {
    forall j :: 0 <= j < |es| ==> es[j].txHash != h
  }

  /** The Map's contents: later slots win, which only matters when a hash repeats. */
  function Items(es: seq<Slot>): map<string, Pending>
  {
    if es == [] then map[] else Items(es[..|es| - 1])[es[|es| - 1].txHash := es[|es| - 1].item]
  }

  /** `pending.set(h, p)`: a present hash keeps its place and gets the new value; a new one is appended. */
  function Put(es: seq<Slot>, h: string, p: Pending): (r: seq<Slot>)
    ensures Absent(es, h) ==> r == es + [Slot(h, p)]
    ensures !Absent(es, h) ==> |r| == |es|
  {
    if Absent(es, h) then es + [Slot(h, p)] else Replace(es, h, p)
  }

  /** Overwrites the value of the last slot holding h, in place. */
  function Replace(es: seq<Slot>, h: string, p: Pending): (r: seq<Slot>)
    ensures |r| == |es|
    ensures forall j :: 0 <= j < |r| ==> r[j].txHash == es[j].txHash
    ensures forall j :: 0 <= j < |r| ==> r[j] == es[j] || r[j] == Slot(h, p)
  {
    if es == [] then []
    else if es[|es| - 1].txHash == h then es[..|es| - 1] + [Slot(h, p)]
    else Replace(es[..|es| - 1], h, p) + [es[|es| - 1]]
  }

  /** The slot test of `pending.delete(h)`. */
  function HashIs(h: string): Slot -> bool
  {
    (s: Slot) => s.txHash == h
  }

  /** `pending.delete(h)` */
  function Delete(es: seq<Slot>, h: string): (r: seq<Slot>)
    ensures |r| <= |es|
    ensures forall j :: 0 <= j < |r| ==> r[j].txHash != h
  {
    Keep(es, HashIs(h))
  }

  /** The slots a slot test `gone` leaves behind, in their order. */
  function Keep(es: seq<Slot>, gone: Slot -> bool): (r: seq<Slot>)
    ensures |r| <= |es|
    ensures forall j :: 0 <= j < |r| ==> !gone(r[j])
  {
    if es == [] then []
    else
      var s := es[|es| - 1];
      Keep(es[..|es| - 1], gone) + (if gone(s) then [] else [s])
  }

  /** The `announce` calls made for the slots, in their order. */
  function Calls(es: seq<Slot>, call: Slot -> Option<AnnounceRequest>): (r: seq<AnnounceRequest>)
    ensures |r| <= |es|
  {
    if es == [] then []
    else
      var c := call(es[|es| - 1]);
      Calls(es[..|es| - 1], call) + (if c.Some? then [c.value] else [])
  }

  /** A request is announced exactly when some slot produces it: every eligible, parsed slot gets its call. */
  lemma {:induction false} CallsMembers(es: seq<Slot>, call: Slot -> Option<AnnounceRequest>)
    ensures forall c :: c in Calls(es, call) <==> exists j :: 0 <= j < |es| && call(es[j]) == Some(c)
  {
    if es != [] {
      var init := es[..|es| - 1];
      CallsMembers(init, call);
      forall c | exists j :: 0 <= j < |es| && call(es[j]) == Some(c)
        ensures c in Calls(es, call)
      {
        var j :| 0 <= j < |es| && call(es[j]) == Some(c);
        if j < |init| {
          assert init[j] == es[j];
        }
      }
      forall c | c in Calls(init, call)
        ensures exists j :: 0 <= j < |es| && call(es[j]) == Some(c)
      {
        var j :| 0 <= j < |init| && call(init[j]) == Some(c);
        assert es[j] == init[j];
      }
    }
  }

  /** The calls for a concatenation are the calls for each part: they follow the slots' order. */
  lemma {:induction false} CallsAppend(a: seq<Slot>, b: seq<Slot>, call: Slot -> Option<AnnounceRequest>)
    ensures Calls(a + b, call) == Calls(a, call) + Calls(b, call)
  {
    if b == [] {
      assert a + b == a;
    } else {
      assert (a + b)[..|a + b| - 1] == a + b[..|b| - 1];
      CallsAppend(a, b[..|b| - 1], call);
    }
  }

  lemma {:induction false} AbsentNotInItems(es: seq<Slot>, h: string)
    requires Absent(es, h)
    ensures h !in Items(es)
  {
    if es != [] {
      AbsentNotInItems(es[..|es| - 1], h);
    }
  }

  /** Setting a key updates exactly that key, keeps every other slot in place and the hashes distinct. */
  lemma PutItems(es: seq<Slot>, h: string, p: Pending)
    requires DistinctHashes(es)
    ensures Items(Put(es, h, p)) == Items(es)[h := p]
    ensures DistinctHashes(Put(es, h, p))
    ensures forall j :: 0 <= j < |es| ==> Put(es, h, p)[j].txHash == es[j].txHash
  {
    if Absent(es, h) {
      var r := es + [Slot(h, p)];
      assert r[..|r| - 1] == es;
    } else {
      ReplaceItems(es, h, p);
    }
  }

  lemma {:induction false} ReplaceItems(es: seq<Slot>, h: string, p: Pending)
    requires DistinctHashes(es) && !Absent(es, h)
    ensures Items(Replace(es, h, p)) == Items(es)[h := p]
  {
    var f, s := es[..|es| - 1], es[|es| - 1];
    if s.txHash == h {
      var r := f + [Slot(h, p)];
      assert r[..|r| - 1] == f;
    } else {
      assert !Absent(f, h);
      ReplaceItems(f, h, p);
      var r := Replace(f, h, p) + [s];
      assert r[..|r| - 1] == Replace(f, h, p);
      UpdatesCommute(Items(f), h, p, s.txHash, s.item);
    }
  }

  lemma UpdatesCommute(m: map<string, Pending>, h: string, p: Pending, k: string, v: Pending)
    requires h != k
    ensures m[h := p][k := v] == m[k := v][h := p]
  {
  }

  /** A test that holds for no slot keeps them all. */
  lemma {:induction false} KeepAll(es: seq<Slot>, gone: Slot -> bool)
    requires forall j :: 0 <= j < |es| ==> !gone(es[j])
    ensures Keep(es, gone) == es
  {
    if es != [] {
      KeepAll(es[..|es| - 1], gone);
      assert es == es[..|es| - 1] + [es[|es| - 1]];
    }
  }

  /** Filtering distributes over concatenation. */
  lemma {:induction false} KeepAppend(a: seq<Slot>, c: seq<Slot>, gone: Slot -> bool)
    ensures Keep(a + c, gone) == Keep(a, gone) + Keep(c, gone)
  {
    if c != [] {
      var c' := c[..|c| - 1];
      assert (a + c)[..|a + c| - 1] == a + c';
      assert (a + c)[|a + c| - 1] == c[|c| - 1];
      KeepAppend(a, c', gone);
    } else {
      assert a + c == a;
    }
  }

  lemma {:induction false} KeepAbsent(es: seq<Slot>, h: string, gone: Slot -> bool)
    requires Absent(es, h)
    ensures Absent(Keep(es, gone), h)
  {
    if es != [] {
      KeepAbsent(es[..|es| - 1], h, gone);
    }
  }

  lemma {:induction false} KeepDistinct(es: seq<Slot>, gone: Slot -> bool)
    requires DistinctHashes(es)
    ensures DistinctHashes(Keep(es, gone))
  {
    if es != [] {
      var f, s := es[..|es| - 1], es[|es| - 1];
      KeepDistinct(f, gone);
      assert Absent(f, s.txHash);
      KeepAbsent(f, s.txHash, gone);
    }
  }

  /**
    Filtering the slots and filtering the map agree: the slots left behind
    hold, as a map, exactly the surviving entries.
  */
  lemma {:induction false} KeepItems(es: seq<Slot>, gone: Slot -> bool)
    requires DistinctHashes(es)
    ensures Items(Keep(es, gone)) == Survivors(Items(es), gone)
  {
    if es != [] {
      var f, s := es[..|es| - 1], es[|es| - 1];
      KeepItems(f, gone);
      assert Absent(f, s.txHash);
      AbsentNotInItems(f, s.txHash);
      SurvivorsAdd(Items(f), s, gone);
      var kf := Keep(f, gone);
      if !gone(s) {
        var r := kf + [s];
        assert r[..|r| - 1] == kf;
      } else {
        assert Keep(es, gone) == kf + [] == kf;
      }
    }
  }

  lemma SurvivorsAdd(m: map<string, Pending>, s: Slot, gone: Slot -> bool)
    requires s.txHash !in m
    ensures gone(s) ==> Survivors(m[s.txHash := s.item], gone) == Survivors(m, gone)
    ensures !gone(s) ==> Survivors(m[s.txHash := s.item], gone) == Survivors(m, gone)[s.txHash := s.item]
  {
    var m' := m[s.txHash := s.item];
    assert Slot(s.txHash, m'[s.txHash]) == s;
    assert forall h :: h in m ==> m'[h] == m[h];
  }

  /** Filtering one more slot of a prefix. */
  lemma KeepStep(es: seq<Slot>, i: nat, gone: Slot -> bool)
    requires i < |es|
    ensures gone(es[i]) ==> Keep(es[..i + 1], gone) == Keep(es[..i], gone)
    ensures !gone(es[i]) ==> Keep(es[..i + 1], gone) == Keep(es[..i], gone) + [es[i]]
  {
    assert es[..i + 1][..i] == es[..i];
  }

  /** The calls for one more slot of a prefix. */
  lemma CallsStep(es: seq<Slot>, i: nat, call: Slot -> Option<AnnounceRequest>)
    requires i < |es|
    ensures call(es[i]).Some? ==> Calls(es[..i + 1], call) == Calls(es[..i], call) + [call(es[i]).value]
    ensures call(es[i]).None? ==> Calls(es[..i + 1], call) == Calls(es[..i], call)
  {
    assert es[..i + 1][..i] == es[..i];
  }

  lemma Shift(kept: seq<Slot>, es: seq<Slot>, i: nat)
    requires i < |es|
    ensures (kept + [es[i]]) + es[i + 1..] == kept + es[i..]
  {
    assert es[i..] == [es[i]] + es[i + 1..];
  }

  /** Deleting the hash of the first slot, which no later slot holds, leaves the later slots. */
  lemma DeleteHead(s: Slot, rest: seq<Slot>)
    requires Absent(rest, s.txHash)
    ensures Delete([s] + rest, s.txHash) == rest
  {
    KeepAppend([s], rest, HashIs(s.txHash));
    KeepAll(rest, HashIs(s.txHash));
    assert Keep([s], HashIs(s.txHash)) == [] by {
      assert [s][..0] == [];
    }
  }

  /** The step of the block handler's loop: deleting the current slot's hash. */
  lemma DeleteStep(snapshot: seq<Slot>, i: nat, kept: seq<Slot>)
    requires DistinctHashes(snapshot) && i < |snapshot|
    requires Absent(kept, snapshot[i].txHash)
    ensures Delete(kept + snapshot[i..], snapshot[i].txHash) == kept + snapshot[i + 1..]
  {
    var h := snapshot[i].txHash;
    var rest := snapshot[i + 1..];
    assert snapshot[i..] == [snapshot[i]] + rest;
    assert Absent(rest, h);
    KeepAppend(kept, snapshot[i..], HashIs(h));
    KeepAll(kept, HashIs(h));
    DeleteHead(snapshot[i], rest);
  }

  /** The loop's bookkeeping when the current slot is delivered: its hash is deleted. */
  lemma SweepDrops(snapshot: seq<Slot>, i: nat, kept: seq<Slot>, gone: Slot -> bool)
    requires DistinctHashes(snapshot) && i < |snapshot|
    requires kept == Keep(snapshot[..i], gone) && gone(snapshot[i])
    ensures kept == Keep(snapshot[..i + 1], gone)
    ensures Delete(kept + snapshot[i..], snapshot[i].txHash) == kept + snapshot[i + 1..]
  {
    KeepStep(snapshot, i, gone);
    assert Absent(snapshot[..i], snapshot[i].txHash);
    KeepAbsent(snapshot[..i], snapshot[i].txHash, gone);
    DeleteStep(snapshot, i, kept);
  }

  /** The loop's bookkeeping when the current slot stays. */
  lemma SweepKeeps(snapshot: seq<Slot>, i: nat, kept: seq<Slot>, gone: Slot -> bool)
    requires i < |snapshot|
    requires kept == Keep(snapshot[..i], gone) && !gone(snapshot[i])
    ensures kept + [snapshot[i]] == Keep(snapshot[..i + 1], gone)
    ensures kept + snapshot[i..] == (kept + [snapshot[i]]) + snapshot[i + 1..]
  {
    KeepStep(snapshot, i, gone);
    Shift(kept, snapshot, i);
  }

  /**
    The loop of the block handler over a snapshot of the Map: `call` gives
    the announcement made for a slot (if any) and `delivered` whether it
    went through; a delivered slot is deleted from the Map.
  */
  method Sweep(snapshot: seq<Slot>, call: Slot -> Option<AnnounceRequest>, delivered: AnnounceRequest -> bool)
    returns (current: seq<Slot>, calls: seq<AnnounceRequest>)
    requires DistinctHashes(snapshot)
    ensures current == Keep(snapshot, Gone(call, delivered))
    ensures calls == Calls(snapshot, call)
  {
    ghost var gone := Gone(call, delivered);
    ghost var kept: seq<Slot> := [];
    current := snapshot;
    calls := [];
    var i := 0;
    while i < |snapshot|
      invariant 0 <= i <= |snapshot|
      invariant kept == Keep(snapshot[..i], gone)
      invariant current == kept + snapshot[i..]
      invariant calls == Calls(snapshot[..i], call)
    {
      var s := snapshot[i];
      CallsStep(snapshot, i, call);
      var c := call(s);
      if c.Some? {
        calls := calls + [c.value];
      }
      GoneAt(call, delivered, s);
      if c.Some? && delivered(c.value) {
        SweepDrops(snapshot, i, kept, gone);
        current := Delete(current, s.txHash);
      } else {
        SweepKeeps(snapshot, i, kept, gone);
        kept := kept + [s];
      }
      assert kept == Keep(snapshot[..i + 1], gone);
      i := i + 1;
    }
    assert snapshot[..i] == snapshot;
  }

  /** The `pending` Map together with the two provider handlers that update it. */
  class Tracker {
    var pending: seq<Slot>

    ghost predicate Valid()
      reads this
    {
      DistinctHashes(pending)
    }

    /** The Map's contents. */
    ghost function Contents(): map<string, Pending>
      reads this
    {
      Items(pending)
    }

    /** `new Map()` */
    constructor ()
      ensures Valid() && pending == []
    {
      pending := [];
    }

    /**
      The log handler: a parsed log is stored under its transaction hash,
      replacing an earlier entry for that hash; a parse error changes nothing.
    */
    method OnLog(txHash: string, blockNumber: int, result: ParseResult)
      requires Valid()
      modifies this
      ensures Valid()
      ensures result.ParseError? ==> pending == old(pending)
      ensures result.Parsed? ==> pending == Put(old(pending), txHash, Pending(blockNumber, result.value))
      ensures result.Parsed? ==> Contents() == old(Contents())[txHash := Pending(blockNumber, result.value)]
    {
      if result.Parsed? {
        PutItems(pending, txHash, Pending(blockNumber, result.value));
        pending := Put(pending, txHash, Pending(blockNumber, result.value));
      }
    }

    /**
      The block handler: walks a snapshot of the Map in order; for each
      entry with enough confirmations it builds the announcement and deletes
      the entry once `announce` succeeded. Returns the `announce` calls made.
    */
    method OnBlock(b: Block, conf: int, dec: int) returns (calls: seq<AnnounceRequest>)
      requires Valid()
      modifies this
      ensures Valid()
      ensures pending == Keep(old(pending), Deliverer(b, conf, dec))
      ensures Contents() == AfterBlock(old(Contents()), b, conf, dec)
      ensures calls == Calls(old(pending), Caller(b.number, conf, dec))
    {
      var snapshot := pending;
      pending, calls := Sweep(snapshot, Caller(b.number, conf, dec), b.delivered);
      KeepDistinct(snapshot, Deliverer(b, conf, dec));
      KeepItems(snapshot, Deliverer(b, conf, dec));
    }
  }
}
