/**
  The `/webhook/public-sale` handler of src/index.js: a fixed chain of early
  exits (signature, JSON, event type, order id, dedup), then the Discord and
  Telegram posts awaited one after the other, then `dedup.add(orderId)`;
  anything thrown on the way becomes a 500.

  HMAC-SHA256 and `JSON.parse` are oracles (`Services`); what the two
  channel posts return, the formatted USD/IDR amounts and the whale
  comparison, which are floating point, come in as a `Delivery`.
*/
module Webhook {
  import opened Wrappers
  import opened Decimal
  import opened Js
  import opened Utils
  import opened DedupStoreModel

  /** The process environment the handler reads. */
  datatype Config = Config(
    secret: string,
    discordUrl: string,
    telegramToken: string,
    telegramChatId: string,
    sourceName: string,
    maskBuyer: bool)

  /** An incoming POST: the body as text and the two signature headers (None: header absent). */
  datatype Request = Request(rawBody: string, signature: Option<string>, legacySignature: Option<string>)

  /** What `JSON.parse` gives: a SyntaxError, `null`, or a value with its own properties. */
  datatype Parsed = InvalidJson | NullJson | Json(fields: map<string, JsValue>)

  /** `hmacHexSha256(secret, raw)` and `JSON.parse(raw)`. */
  datatype Services = Services(hmac: (string, string) -> string, parse: string -> Parsed)

  /**
    What the outside world answers while a request is handled: whether each
    channel post succeeds, the text `fmtCurrency`/`fmtIDR` give, and whether
    the USD total reaches the whale threshold.
  */
  datatype Delivery = Delivery(
    discordOk: bool,
    telegramOk: bool,
    usdText: string,
    idrText: string,
    aboveWhaleThreshold: bool)

  /** The JSON responses of the handler. */
  datatype Reply =
    | InvalidSignature
    | InvalidJsonBody
    | Skipped
    | MissingOrderId
    | Duplicate
    | Accepted
    | InternalError

  function Status(r: Reply): (code: int)
    ensures code == 200 <==> r in {Skipped, Duplicate, Accepted}
  {
    match r
    case InvalidSignature => 401
    case InvalidJsonBody => 400
    case MissingOrderId => 400
    case InternalError => 500
    case _ => 200
  }

  /** The handler's effect: its reply, the posts it makes and the key it records. */
  datatype Outcome = Outcome(reply: Reply, discordPosted: bool, telegramText: Option<string>, recorded: Option<string>)

  function Quiet(r: Reply): Outcome
  {
    Outcome(r, false, None, None)
  }

  // ---------------------------------------------------------------- request fields

  /** `req.get('x-webhook-signature') || req.get('x-signature') || ''` */
  function SentSignature(primary: Option<string>, fallback: Option<string>): (r: string)
    ensures primary.Some? && primary.value != "" ==> r == primary.value
    ensures primary.None? || primary.value == "" ==> r == (if fallback.Some? then fallback.value else "")
  {
    if primary.Some? && primary.value != "" then primary.value
    else if fallback.Some? && fallback.value != "" then fallback.value
    else ""
  }

  /** `data.name`: a property that is not there reads as `undefined`. */
  function Field(data: map<string, JsValue>, name: string): JsValue
  {
    if name in data then data[name] else Undefined
  }

  /** `String(data.orderId || '')` */
  function OrderId(data: map<string, JsValue>): (id: string)
    ensures !Truthy(Field(data, "orderId")) ==> id == ""
    ensures Truthy(Field(data, "orderId")) ==> id == ToStr(Field(data, "orderId"))
  {
    ToStr(Or(Field(data, "orderId"), Str("")))
  }

  /**
    `Number(data.tokenDecimals ?? 18)` as far as `formatUnits` can use it:
    a string is trimmed and read as decimal digits, the empty string is 0;
    None stands for NaN and for every value this model does not convert.
  */
  function Decimals(v: JsValue): (r: Option<int>)
    ensures IsNullish(v) ==> r == Some(18)
    ensures v.Num? ==> r == Some(v.n)
    ensures r.Some? && r.value < 0 ==> v.Num?
  {
    if IsNullish(v) then Some(18)
    else match v
      case Num(n) => Some(n)
      case Str(s) =>
        var t := Trim(s);
        if t == "" then Some(0)
        else if IsDigits(t) then Some(Value(t))
        else None
      case _ => None
  }

  /** A decimal-digit string, with or without surrounding blanks, is its value. */
  lemma DecimalsOfDigits(s: string)
    requires IsDigits(s) && s != ""
    ensures Decimals(Str(s)) == Some(Value(s))
  {
    TrimDigits(s);
  }

  /**
    `formatUnits(String(data.amountToken ?? '0'), decimals)`; a decimals
    value that is NaN makes `BigInt(decimals)` throw, which `formatUnits`
    answers with its input.
  */
  function AmountText(data: map<string, JsValue>): (r: string)
    ensures Decimals(Field(data, "tokenDecimals")).None? ==> r == ToStr(Coalesce(Field(data, "amountToken"), Str("0")))
  {
    var amountStr := ToStr(Coalesce(Field(data, "amountToken"), Str("0")));
    match Decimals(Field(data, "tokenDecimals"))
    case None => amountStr
    case Some(d) => FormatUnits(amountStr, d)
  }

  /** A missing amount reads as "0", which renders as "0" whatever the decimals. */
  lemma AmountTextMissing(data: map<string, JsValue>, d: nat)
    requires IsNullish(Field(data, "amountToken")) && Decimals(Field(data, "tokenDecimals")) == Some(d)
    ensures AmountText(data) == "0"
  {
    FormatUnitsZero(d);
  }

  /** A decimal amount with the default 18 decimals reads back as the same number. */
  lemma AmountTextDefault(data: map<string, JsValue>, n: nat)
    requires Field(data, "amountToken") == Str(ToDecimal(n)) && IsNullish(Field(data, "tokenDecimals"))
    ensures ReadScaled(AmountText(data), 18) == Some(n)
  {
    FormatUnitsOfDecimal(n, 18);
    ScaleRoundTrip(n, 18);
  }

  /** Where `usdTotal` comes from. */
  datatype UsdSource = PriceTimesAmount | PaidAmountUsd | NoUsd

  /** `pricePerTokenUSD != null ? … : (paidCurrency === 'USD' ? … : null)` */
  function UsdSourceOf(data: map<string, JsValue>): (r: UsdSource)
    ensures !IsNullish(Field(data, "pricePerTokenUSD")) <==> r == PriceTimesAmount
    ensures r == PaidAmountUsd <==> IsNullish(Field(data, "pricePerTokenUSD")) && Field(data, "paidCurrency") == Str("USD")
  {
    if !IsNullish(Field(data, "pricePerTokenUSD")) then PriceTimesAmount
    else if Field(data, "paidCurrency") == Str("USD") then PaidAmountUsd
    else NoUsd
  }

  /** `usdTotal != null && usdTotal >= WHALE_USD_THRESHOLD` */
  predicate Whale(data: map<string, JsValue>, d: Delivery)
  {
    UsdSourceOf(data) != NoUsd && d.aboveWhaleThreshold
  }

  /** A whale title needs a USD figure: a per-token USD price, or a payment made in USD. */
  lemma WhaleHasUsd(data: map<string, JsValue>, d: Delivery)
    ensures Whale(data, d) ==> !IsNullish(Field(data, "pricePerTokenUSD")) || Field(data, "paidCurrency") == Str("USD")
  {
  }

  /** Without a USD total there is no whale, whatever the threshold says. */
  lemma NoUsdNoWhale(data: map<string, JsValue>, d: Delivery)
    requires UsdSourceOf(data) == NoUsd
    ensures !Whale(data, d)
  {
  }

  /** `MASK_BUYER ? maskAddress(data.buyer) : data.buyer` */
  function BuyerShown(cfg: Config, data: map<string, JsValue>): JsValue
  {
    if cfg.maskBuyer then MaskAddress(Field(data, "buyer")) else Field(data, "buyer")
  }

  /** Masking never hides a buyer nor invents one: the buyer line follows `data.buyer`. */
  lemma BuyerShownTruthy(cfg: Config, data: map<string, JsValue>)
    ensures Truthy(BuyerShown(cfg, data)) <==> Truthy(Field(data, "buyer"))
  {
  }

  // ---------------------------------------------------------------- the Telegram text

  const WhaleIcon: string := "\U{1F40B}"
  const GreenCircle: string := "\U{1F7E2}"
  const BuyerCaption: string := "Buyer: "
  const AmountCaption: string := "Amount: "
  const UsdCaption: string := "Est. USD: "
  const IdrCaption: string := "Est. IDR: "
  const TxCaption: string := "Tx: "

  function Title(whale: bool, sourceName: string): string
  {
    (if whale then WhaleIcon else GreenCircle) + " New Buy (" + sourceName + ")"
  }

  /** `caption + value`, a line that is always there. */
  function Line(caption: string, value: string): string
  {
    caption + value
  }

  /** `cond ? caption + value : null` */
  function OptionalLine(cond: bool, caption: string, value: string): (r: Option<string>)
    ensures r.Some? <==> cond
  {
    if cond then Some(Line(caption, value)) else None
  }

  /**
    The amount line, trimmed so that a missing symbol leaves no trailing
    space; `amount` is `amountTokenStr`, which the handler computes once
    (`AmountText`) for both posts.
  */
  function AmountLine(amount: string, data: map<string, JsValue>): string
  {
    Trim(Line(AmountCaption, amount + " " + ToStr(Or(Field(data, "tokenSymbol"), Str("")))))
  }

  /** Trimming keeps the caption up to its colon, whatever the amount and symbol are. */
  lemma AmountLineCaption(amount: string, data: map<string, JsValue>)
    ensures |AmountLine(amount, data)| >= 7 && AmountLine(amount, data)[..7] == "Amount:"
  {
    var s := Line(AmountCaption, amount + " " + ToStr(Or(Field(data, "tokenSymbol"), Str(""))));
    CaptionSurvivesTrim(s);
  }

  lemma CaptionSurvivesTrim(s: string)
    requires |s| >= 7 && s[..7] == "Amount:"
    ensures |Trim(s)| >= 7 && Trim(s)[..7] == "Amount:"
  {
    assert !IsSpace(s[0]) && !IsSpace(s[6]);
    assert TrimStart(s) == s;
  }

  function BuyerLine(cfg: Config, data: map<string, JsValue>): (r: Option<string>)
    ensures r.Some? <==> Truthy(BuyerShown(cfg, data))
  {
    var buyer := BuyerShown(cfg, data);
    OptionalLine(Truthy(buyer), BuyerCaption, ToStr(buyer))
  }

  function TxLine(data: map<string, JsValue>): (r: Option<string>)
    ensures r.Some? <==> Truthy(Field(data, "explorerTxUrl"))
  {
    var tx := Field(data, "explorerTxUrl");
    OptionalLine(Truthy(tx), TxCaption, ToStr(tx))
  }

  /** The array literal of Telegram lines, for the amount text `amount`; None is a `null` entry. */
  function TelegramLines(cfg: Config, data: map<string, JsValue>, d: Delivery, amount: string): (lines: seq<Option<string>>)
    ensures |lines| == 6 && lines[0] == Some(Title(Whale(data, d), cfg.sourceName))
  {
    var usd := UsdSourceOf(data) != NoUsd;
    [ Some(Title(Whale(data, d), cfg.sourceName)),
      BuyerLine(cfg, data),
      Some(AmountLine(amount, data)),
      OptionalLine(usd, UsdCaption, d.usdText),
      OptionalLine(usd, IdrCaption, d.idrText),
      TxLine(data) ]
  }

  /**
    The buyer, USD, IDR and Tx lines are there exactly when their data is:
    the two estimates together, and only with a USD total.
  */
  lemma TelegramLinesPresent(cfg: Config, data: map<string, JsValue>, d: Delivery, amount: string)
    ensures var lines := TelegramLines(cfg, data, d, amount);
      && lines[2].Some?
      && (lines[1].Some? <==> Truthy(BuyerShown(cfg, data)))
      && (lines[3].Some? <==> UsdSourceOf(data) != NoUsd)
      && (lines[4].Some? <==> UsdSourceOf(data) != NoUsd)
      && (lines[5].Some? <==> Truthy(Field(data, "explorerTxUrl")))
  {
  }

  /** `filter(Boolean)`: drops the `null` entries and the empty strings, keeping the order. */
  function Compact(lines: seq<Option<string>>): (r: seq<string>)
    ensures |r| <= |lines|
    ensures forall i :: 0 <= i < |r| ==> r[i] != ""
  {
    if lines == [] then []
    else (if lines[0].Some? && lines[0].value != "" then [lines[0].value] else []) + Compact(lines[1..])
  }

  /** A line is kept exactly when it is a non-empty `Some` entry: nothing is lost, nothing is added. */
  lemma {:induction false} CompactMembers(lines: seq<Option<string>>)
    ensures forall s :: s in Compact(lines) <==> s != "" && Some(s) in lines
  {
    if lines != [] {
      CompactMembers(lines[1..]);
      assert lines == [lines[0]] + lines[1..];
    }
  }

  /** Filtering a concatenation filters each part: the kept lines stay in their order. */
  lemma {:induction false} CompactAppend(a: seq<Option<string>>, b: seq<Option<string>>)
    ensures Compact(a + b) == Compact(a) + Compact(b)
  {
    if a == [] {
      assert a + b == b;
    } else {
      assert (a + b)[1..] == a[1..] + b;
      CompactAppend(a[1..], b);
    }
  }

  /** `join(sep)` */
  function Join(xs: seq<string>, sep: char): string
  {
    if xs == [] then ""
    else if |xs| == 1 then xs[0]
    else xs[0] + [sep] + Join(xs[1..], sep)
  }

  /** Position of the first c in s, or |s| when there is none. */
  function IndexOf(s: string, c: char): (i: nat)
    ensures i <= |s|
    ensures forall j :: 0 <= j < i ==> s[j] != c
    ensures i < |s| ==> s[i] == c
  {
    if s == [] then 0 else if s[0] == c then 0 else 1 + IndexOf(s[1..], c)
  }

  /** `split(sep)`: the pieces between the separators. */
  function Split(s: string, sep: char): (r: seq<string>)
    ensures |r| >= 1
    decreases |s|
  {
    var i := IndexOf(s, sep);
    if i == |s| then [s] else [s[..i]] + Split(s[i + 1..], sep)
  }

  /** The text posted to Telegram. */
  function TelegramText(cfg: Config, data: map<string, JsValue>, d: Delivery, amount: string): string
  {
    Join(Compact(TelegramLines(cfg, data, d, amount)), '\n')
  }

  /** The Telegram text opens with its title, whichever optional lines follow. */
  lemma TelegramTextTitle(cfg: Config, data: map<string, JsValue>, d: Delivery, amount: string)
    ensures var title := Title(Whale(data, d), cfg.sourceName);
      |title| <= |TelegramText(cfg, data, d, amount)| && TelegramText(cfg, data, d, amount)[..|title|] == title
  {
    var lines := TelegramLines(cfg, data, d, amount);
    var title := Title(Whale(data, d), cfg.sourceName);
    assert title != "";
    assert Compact(lines) == [title] + Compact(lines[1..]);
  }

  /** Splitting a join gives the parts back, as long as no part holds the separator. */
  lemma {:induction false} SplitJoin(xs: seq<string>, sep: char)
    requires xs != []
    requires forall i :: 0 <= i < |xs| ==> sep !in xs[i]
    ensures Split(Join(xs, sep), sep) == xs
  {
    var x := xs[0];
    assert sep !in x;
    if |xs| == 1 {
      assert IndexOf(x, sep) == |x|;
    } else {
      var rest := xs[1..];
      assert forall i :: 0 <= i < |rest| ==> sep !in rest[i] by {
        forall i | 0 <= i < |rest| ensures sep !in rest[i] {
          assert rest[i] == xs[i + 1];
        }
      }
      SplitJoin(rest, sep);
      var s := x + [sep] + Join(rest, sep);
      IndexOfAfter(x, sep, Join(rest, sep));
      assert s[..|x|] == x;
      assert s[|x| + 1..] == Join(rest, sep);
    }
  }

  lemma {:induction false} IndexOfAfter(x: string, sep: char, tail: string)
    requires sep !in x
    ensures IndexOf(x + [sep] + tail, sep) == |x|
  {
    var s := x + [sep] + tail;
    if x != [] {
      assert s[0] == x[0];
      assert s[1..] == x[1..] + [sep] + tail;
      IndexOfAfter(x[1..], sep, tail);
    }
  }

  /**
    The Telegram message's lines are the title followed by the non-null,
    non-empty optional lines, in order, as long as none of them holds a line
    break.
  */
  lemma TelegramTextLines(cfg: Config, data: map<string, JsValue>, d: Delivery, amount: string)
    requires forall i :: 0 <= i < 6 && TelegramLines(cfg, data, d, amount)[i].Some? ==> '\n' !in TelegramLines(cfg, data, d, amount)[i].value
    ensures var ls := Split(TelegramText(cfg, data, d, amount), '\n');
      ls == Compact(TelegramLines(cfg, data, d, amount)) && ls[0] == Title(Whale(data, d), cfg.sourceName)
  {
    var lines := TelegramLines(cfg, data, d, amount);
    CompactFacts(lines, '\n');
    var c := Compact(lines);
    var title := Title(Whale(data, d), cfg.sourceName);
    assert title != "";
    assert c == [title] + Compact(lines[1..]);
    SplitJoin(c, '\n');
  }

  /** Every kept line is one of the entries, so the kept lines avoid whatever all entries avoid. */
  lemma {:induction false} CompactFacts(lines: seq<Option<string>>, sep: char)
    requires forall i :: 0 <= i < |lines| && lines[i].Some? ==> sep !in lines[i].value
    ensures forall i :: 0 <= i < |Compact(lines)| ==> sep !in Compact(lines)[i]
  {
    if lines != [] {
      CompactFacts(lines[1..], sep);
      var head := if lines[0].Some? && lines[0].value != "" then [lines[0].value] else [];
      var rest := Compact(lines[1..]);
      assert Compact(lines) == head + rest;
      forall i | 0 <= i < |Compact(lines)| ensures sep !in Compact(lines)[i] {
        if i >= |head| {
          assert Compact(lines)[i] == rest[i - |head|];
        }
      }
    }
  }

  // ---------------------------------------------------------------- the decision chain

  /** Where the early-exit chain ends: a reply, or an order to announce. */
  datatype Decision = Stop(reply: Reply) | Announce(orderId: string, data: map<string, JsValue>)

  /** Lines 21-37 of the handler: the checks that do not look at the store. */
  function Checks(cfg: Config, req: Request, svc: Services): (r: Decision)
    ensures r.Announce? ==> r.orderId != "" && svc.parse(req.rawBody) == Json(r.data)
    ensures !TimingSafeEqualHex(SentSignature(req.signature, req.legacySignature), svc.hmac(cfg.secret, req.rawBody))
      <==> r == Stop(InvalidSignature)
  {
    var sentSig := SentSignature(req.signature, req.legacySignature);
    var calcSig := svc.hmac(cfg.secret, req.rawBody);
    if !TimingSafeEqualHex(sentSig, calcSig) then Stop(InvalidSignature)
    else match svc.parse(req.rawBody)
      case InvalidJson => Stop(InvalidJsonBody)
      case NullJson => Stop(InternalError)
      case Json(data) =>
        if Field(data, "event") != Str("purchase.confirmed") then Stop(Skipped)
        else
          var orderId := OrderId(data);
          if orderId == "" then Stop(MissingOrderId)
          else Announce(orderId, data)
  }

  /** Lines 21-38: the checks, then the dedup lookup. */
  function Triage(cfg: Config, req: Request, svc: Services, entries: map<string, int>): (r: Decision)
    ensures r.Announce? ==> r.orderId != "" && !Seen(entries, r.orderId)
    ensures r == Stop(Duplicate) <==> Checks(cfg, req, svc).Announce? && Seen(entries, Checks(cfg, req, svc).orderId)
  {
    match Checks(cfg, req, svc)
    case Stop(reply) => Stop(reply)
    case Announce(orderId, data) =>
      if Seen(entries, orderId) then Stop(Duplicate) else Announce(orderId, data)
  }

  /**
    Lines 21-38 as written: `dedup.has` is `!!map[key]` on a plain object,
    which also finds the members every object inherits (`SeenAsWritten`).
  */
  function TriageAsWritten(cfg: Config, req: Request, svc: Services, entries: map<string, int>): (r: Decision)
    ensures r.Announce? ==> r.orderId != "" && !SeenAsWritten(entries, r.orderId)
    ensures r == Stop(Duplicate) <==> Checks(cfg, req, svc).Announce? && SeenAsWritten(entries, Checks(cfg, req, svc).orderId)
  {
    match Checks(cfg, req, svc)
    case Stop(reply) => Stop(reply)
    case Announce(orderId, data) =>
      if SeenAsWritten(entries, orderId) then Stop(Duplicate) else Announce(orderId, data)
  }

  /**
    Lines 40-90 of the handler for an order that passed the checks: the
    Discord post, then the Telegram post, each only when configured and each
    awaited, then the record. A failed post throws, which is a 500 with
    nothing recorded.
  */
  function Posts(cfg: Config, orderId: string, data: map<string, JsValue>, d: Delivery): (o: Outcome)
    ensures o.recorded.Some? <==> o.reply == Accepted
    ensures o.reply in {Accepted, InternalError}
    ensures o.recorded.Some? ==> o.recorded.value == orderId
    ensures o.recorded.Some? ==> (cfg.discordUrl != "" ==> d.discordOk) && (cfg.telegramToken != "" && cfg.telegramChatId != "" ==> d.telegramOk)
    ensures o.discordPosted <==> cfg.discordUrl != ""
    ensures o.telegramText.Some? <==> cfg.telegramToken != "" && cfg.telegramChatId != "" && (cfg.discordUrl != "" ==> d.discordOk)
    ensures o.telegramText.Some? ==> o.telegramText.value == TelegramText(cfg, data, d, AmountText(data))
  {
    var discord := cfg.discordUrl != "";
    var telegram := cfg.telegramToken != "" && cfg.telegramChatId != "";
    var text := TelegramText(cfg, data, d, AmountText(data));
    if discord && !d.discordOk then Outcome(InternalError, true, None, None)
    else if telegram && !d.telegramOk then Outcome(InternalError, discord, Some(text), None)
    else Outcome(Accepted, discord, if telegram then Some(text) else None, Some(orderId))
  }

  /** What the whole handler does, given the stored map before it runs. */
  function Expected(cfg: Config, req: Request, svc: Services, d: Delivery, entries: map<string, int>): (o: Outcome)
    ensures o.recorded.Some? ==> o.reply == Accepted && !Seen(entries, o.recorded.value)
    ensures o.reply == Duplicate ==> Checks(cfg, req, svc).Announce? && Seen(entries, Checks(cfg, req, svc).orderId)
  {
    match Triage(cfg, req, svc, entries)
    case Stop(r) => Quiet(r)
    case Announce(orderId, data) => Posts(cfg, orderId, data, d)
  }

  /** The handler as written, with the lookup of `TriageAsWritten`. */
  function ExpectedAsWritten(cfg: Config, req: Request, svc: Services, d: Delivery, entries: map<string, int>): (o: Outcome)
    ensures o.reply == Duplicate ==> Checks(cfg, req, svc).Announce? && SeenAsWritten(entries, Checks(cfg, req, svc).orderId)
  {
    match TriageAsWritten(cfg, req, svc, entries)
    case Stop(r) => Quiet(r)
    case Announce(orderId, data) => Posts(cfg, orderId, data, d)
  }

  /** The written and the intended handler agree on every order id that is not an inherited name. */
  lemma AsWrittenAgrees(cfg: Config, req: Request, svc: Services, d: Delivery, entries: map<string, int>)
    requires Checks(cfg, req, svc).Announce? ==> Checks(cfg, req, svc).orderId !in PrototypeNames
    ensures ExpectedAsWritten(cfg, req, svc, d, entries) == Expected(cfg, req, svc, d, entries)
  {
  }

  /**
    They differ on an order whose id is an inherited name and not in the
    store: as written it is answered `dedup` and never announced; as
    intended it is announced and, once the posts went through, recorded.
  */
  lemma PrototypeIdAsWritten(cfg: Config, req: Request, svc: Services, d: Delivery, entries: map<string, int>)
    requires Checks(cfg, req, svc).Announce?
    requires Checks(cfg, req, svc).orderId in PrototypeNames && Checks(cfg, req, svc).orderId !in entries
    ensures ExpectedAsWritten(cfg, req, svc, d, entries) == Quiet(Duplicate)
    ensures Triage(cfg, req, svc, entries) == Checks(cfg, req, svc)
    ensures (cfg.discordUrl != "" ==> d.discordOk) && (cfg.telegramToken != "" && cfg.telegramChatId != "" ==> d.telegramOk) ==>
      Expected(cfg, req, svc, d, entries).reply == Accepted && Expected(cfg, req, svc, d, entries).recorded == Some(Checks(cfg, req, svc).orderId)
  {
  }

  /**
    The input that shows it: a signed `purchase.confirmed` event for order
    "constructor" on an empty store, both channels answering.
  */
  lemma ConstructorOrderAsWritten(cfg: Config, req: Request, svc: Services, d: Delivery)
    requires TimingSafeEqualHex(SentSignature(req.signature, req.legacySignature), svc.hmac(cfg.secret, req.rawBody))
    requires svc.parse(req.rawBody) == Json(map["event" := Str("purchase.confirmed"), "orderId" := Str("constructor")])
    requires d.discordOk && d.telegramOk
    ensures ExpectedAsWritten(cfg, req, svc, d, map[]) == Quiet(Duplicate)
    ensures Expected(cfg, req, svc, d, map[]).reply == Accepted
    ensures Expected(cfg, req, svc, d, map[]).recorded == Some("constructor")
  {
    var data := map["event" := Str("purchase.confirmed"), "orderId" := Str("constructor")];
    assert Field(data, "event") == Str("purchase.confirmed");
    assert OrderId(data) == "constructor";
    assert Checks(cfg, req, svc) == Announce("constructor", data);
    PrototypeIdAsWritten(cfg, req, svc, d, map[]);
  }

  /** A bad or missing signature gets a 401 before the body is parsed: nothing is posted or recorded. */
  lemma SignatureFirst(cfg: Config, req: Request, svc: Services, d: Delivery, entries: map<string, int>, parse': string -> Parsed)
    requires !TimingSafeEqualHex(SentSignature(req.signature, req.legacySignature), svc.hmac(cfg.secret, req.rawBody))
    ensures Expected(cfg, req, svc, d, entries) == Quiet(InvalidSignature)
    ensures Expected(cfg, req, svc.(parse := parse'), d, entries) == Quiet(InvalidSignature)
    ensures Status(Expected(cfg, req, svc, d, entries).reply) == 401
  {
  }

  /** With neither header present the sent signature is '', which no non-empty HMAC digest equals. */
  lemma MissingHeaderRejected(cfg: Config, req: Request, svc: Services, d: Delivery, entries: map<string, int>)
    requires req.signature.None? && req.legacySignature.None?
    requires svc.hmac(cfg.secret, req.rawBody) != ""
    ensures Expected(cfg, req, svc, d, entries) == Quiet(InvalidSignature)
  {
    var digest := svc.hmac(cfg.secret, req.rawBody);
    TimingSafeEqualHexIsEquality("", digest);
  }

  /** Every early exit replies without posting anything and without recording the order. */
  lemma EarlyExitsAreQuiet(cfg: Config, req: Request, svc: Services, d: Delivery, entries: map<string, int>)
    requires Triage(cfg, req, svc, entries).Stop?
    ensures var o := Expected(cfg, req, svc, d, entries);
      !o.discordPosted && o.telegramText.None? && o.recorded.None? && o.reply != Accepted
  {
  }

  /** The order of the exits once the signature is good. */
  lemma ExitOrder(cfg: Config, req: Request, svc: Services, d: Delivery, entries: map<string, int>)
    requires TimingSafeEqualHex(SentSignature(req.signature, req.legacySignature), svc.hmac(cfg.secret, req.rawBody))
    ensures svc.parse(req.rawBody).InvalidJson? ==> Expected(cfg, req, svc, d, entries) == Quiet(InvalidJsonBody)
    ensures svc.parse(req.rawBody).NullJson? ==> Expected(cfg, req, svc, d, entries) == Quiet(InternalError)
    ensures svc.parse(req.rawBody).Json? && Field(svc.parse(req.rawBody).fields, "event") != Str("purchase.confirmed") ==>
      Expected(cfg, req, svc, d, entries) == Quiet(Skipped)
    ensures svc.parse(req.rawBody).Json? && Field(svc.parse(req.rawBody).fields, "event") == Str("purchase.confirmed") ==>
      var id := OrderId(svc.parse(req.rawBody).fields);
      && (id == "" ==> Expected(cfg, req, svc, d, entries) == Quiet(MissingOrderId))
      && (id != "" && Seen(entries, id) ==> Expected(cfg, req, svc, d, entries) == Quiet(Duplicate))
      && (id != "" && !Seen(entries, id) ==> Triage(cfg, req, svc, entries) == Announce(id, svc.parse(req.rawBody).fields))
  {
  }

  /**
    The posts are awaited in sequence with no catch of their own: a failed
    Discord post is a 500, Telegram is not tried and the order is not
    recorded, so the sender's retry will announce it again.
  */
  lemma DiscordFailureStopsEverything(cfg: Config, req: Request, svc: Services, d: Delivery, entries: map<string, int>)
    requires Triage(cfg, req, svc, entries).Announce? && cfg.discordUrl != "" && !d.discordOk
    ensures Expected(cfg, req, svc, d, entries) == Outcome(InternalError, true, None, None)
    ensures Status(Expected(cfg, req, svc, d, entries).reply) == 500
  {
  }

  /**
    The order is recorded only after every configured channel was posted
    successfully; each channel is posted only when it is configured.
  */
  lemma RecordedOnlyAfterPosts(cfg: Config, req: Request, svc: Services, d: Delivery, entries: map<string, int>)
    ensures var o := Expected(cfg, req, svc, d, entries);
      && (o.recorded.Some? <==> o.reply == Accepted)
      && (o.recorded.Some? ==> (cfg.discordUrl != "" ==> d.discordOk) && (cfg.telegramToken != "" && cfg.telegramChatId != "" ==> d.telegramOk))
      && (o.discordPosted ==> cfg.discordUrl != "")
      && (o.telegramText.Some? ==> cfg.telegramToken != "" && cfg.telegramChatId != "")
      && (o.telegramText.Some? && cfg.discordUrl != "" ==> d.discordOk)
      && (o.recorded.Some? ==> Triage(cfg, req, svc, entries) == Announce(o.recorded.value, Triage(cfg, req, svc, entries).data))
  {
  }

  /** Only an announced order is recorded, under its own id. */
  lemma RecordedIsAnnounced(cfg: Config, req: Request, svc: Services, d: Delivery, entries: map<string, int>)
    requires Expected(cfg, req, svc, d, entries).recorded.Some?
    ensures Triage(cfg, req, svc, entries).Announce?
    ensures Expected(cfg, req, svc, d, entries).recorded.value == Triage(cfg, req, svc, entries).orderId
  {
  }

  /** Once an announced order's id is in the store, the same request stops at the dedup check. */
  lemma SeenIsDuplicate(cfg: Config, req: Request, svc: Services, d: Delivery, entries: map<string, int>, later: map<string, int>)
    requires Triage(cfg, req, svc, entries).Announce?
    requires Seen(later, Triage(cfg, req, svc, entries).orderId)
    ensures Triage(cfg, req, svc, later) == Stop(Duplicate)
    ensures Expected(cfg, req, svc, d, later) == Quiet(Duplicate)
  {
  }

  /**
    A request that was announced and recorded is a duplicate when it is
    delivered again (its stamp is the newest, so pruning keeps it).
  */
  lemma RedeliveryIsDuplicate(cfg: Config, req: Request, svc: Services, d: Delivery, d': Delivery,
                              entries: map<string, int>, now: int, after: map<string, int>)
    requires Expected(cfg, req, svc, d, entries).recorded.Some?
    requires now != 0 && forall k :: k in entries ==> entries[k] < now
    requires Pruned(entries[Expected(cfg, req, svc, d, entries).recorded.value := now], after)
    ensures Expected(cfg, req, svc, d', after) == Quiet(Duplicate)
  {
    var id := Expected(cfg, req, svc, d, entries).recorded.value;
    RecordedIsAnnounced(cfg, req, svc, d, entries);
    AddThenHas(entries, id, now, after);
    SeenIsDuplicate(cfg, req, svc, d', entries, after);
  }

  // ---------------------------------------------------------------- the handler

  /**
    The handler itself: runs the chain of exits, makes the configured posts
    in order and records the order id once both went through.
  */
  method HandleWebhook(store: DedupStore, cfg: Config, req: Request, svc: Services, d: Delivery, now: int)
    returns (out: Outcome)
    modifies store
    ensures out == Expected(cfg, req, svc, d, old(store.entries))
    ensures out.recorded.Some? ==> Pruned(old(store.entries)[out.recorded.value := now], store.entries)
    ensures out.recorded.None? ==> store.entries == old(store.entries)
  {
    var sentSig := SentSignature(req.signature, req.legacySignature);
    var calcSig := svc.hmac(cfg.secret, req.rawBody);
    if !TimingSafeEqualHex(sentSig, calcSig) {
      return Quiet(InvalidSignature);
    }
    var parsed := svc.parse(req.rawBody);
    if parsed.InvalidJson? {
      return Quiet(InvalidJsonBody);
    }
    if parsed.NullJson? {
      // `data.event` on `null` throws a TypeError
      return Quiet(InternalError);
    }
    var data := parsed.fields;
    if Field(data, "event") != Str("purchase.confirmed") {
      return Quiet(Skipped);
    }
    var orderId := OrderId(data);
    if orderId == "" {
      return Quiet(MissingOrderId);
    }
    if store.Has(orderId) {
      return Quiet(Duplicate);
    }

    var amount := AmountText(data);
    var discord := cfg.discordUrl != "";
    if discord && !d.discordOk {
      return Outcome(InternalError, true, None, None);
    }
    var telegramText: Option<string> := None;
    if cfg.telegramToken != "" && cfg.telegramChatId != "" {
      telegramText := Some(TelegramText(cfg, data, d, amount));
      if !d.telegramOk {
        return Outcome(InternalError, discord, telegramText, None);
      }
    }
    store.Add(orderId, now);
    return Outcome(Accepted, discord, telegramText, Some(orderId));
  }
}
