/** Order identity (packages/domain/workflow.py) and intent creation
    (packages/execution/intents.py). The hash is an arbitrary function: what is
    proved needs only that it does not collide on the two texts at hand. */
module OrderIdentity {

  import opened Common
  import opened Decimals
  import O = OptionsEngine
  import R = RiskPortfolio

  datatype Side = Buy | Sell

  datatype IntentLeg = IntentLeg(symbol: string, side: Side, ratio: O.PositiveInt)

  /** The arguments of `stable_client_order_id`. */
  datatype Identity = Identity(
    decisionId: string, legs: seq<IntentLeg>, quantity: O.PositiveInt, price: Dec,
    timeInForce: string, policy: string)

  function SideText(side: Side): string {
    if side == Buy then "buy" else "sell"
  }

  // ----- Joining and splitting -----

  /** `sep.join(parts)`. */
  function Join(parts: seq<string>, sep: char): string {
    if parts == [] then "" else if |parts| == 1 then parts[0] else parts[0] + [sep] + Join(parts[1..], sep)
  }

  function Split(s: string, sep: char): (parts: seq<string>)
    ensures parts != []
    decreases |s|
  {
    if sep !in s then [s] else
    SplitShrinks(s, sep);
    [Before(s, sep)] + Split(Behind(s, sep), sep)
  }

  lemma {:induction false} SplitShrinks(s: string, sep: char)
    requires sep in s
    ensures |Behind(s, sep)| < |s|
  {
    if s[0] != sep { SplitShrinks(s[1..], sep); }
  }

  predicate Free(s: string, sep: char) {
    sep !in s
  }

  lemma {:induction false} SplitJoin(parts: seq<string>, sep: char)
    requires parts != [] && forall i :: 0 <= i < |parts| ==> Free(parts[i], sep)
    ensures Split(Join(parts, sep), sep) == parts
    decreases |parts|
  {
    if |parts| > 1 {
      CutAt(parts[0], sep, Join(parts[1..], sep));
      SplitJoin(parts[1..], sep);
      assert sep in Join(parts, sep);
      assert parts == [parts[0]] + parts[1..];
    }
  }

  lemma {:induction false} CutFirst(a: string, c: char, b: string)
    requires c in a
    ensures Before(a + b, c) == Before(a, c) && Behind(a + b, c) == Behind(a, c) + b
  {
    assert (a + b)[0] == a[0];
    if a[0] != c {
      assert (a + b)[1..] == a[1..] + b;
      CutFirst(a[1..], c, b);
    } else {
      assert (a + b)[1..] == a[1..] + b;
    }
  }

  /** Splitting at a separator splits the two sides. */
  lemma {:induction false} SplitAppend(a: string, sep: char, b: string)
    ensures Split(a + [sep] + b, sep) == Split(a, sep) + Split(b, sep)
    decreases |a|
  {
    var s := a + [sep] + b;
    assert s[|a|] == sep && sep in s;
    if sep !in a {
      CutAt(a, sep, b);
    } else {
      assert s == a + ([sep] + b);
      CutFirst(a, sep, [sep] + b);
      SplitShrinks(a, sep);
      assert Behind(s, sep) == Behind(a, sep) + [sep] + b;
      SplitAppend(Behind(a, sep), sep, b);
    }
  }

  lemma {:induction false} CutTwo(s: string, c: char)
    requires c in s
    ensures s == Before(s, c) + [c] + Behind(s, c)
  {
    if s[0] != c { CutTwo(s[1..], c); }
  }

  lemma {:induction false} JoinSplit(s: string, sep: char)
    ensures Join(Split(s, sep), sep) == s
    decreases |s|
  {
    if sep in s {
      SplitShrinks(s, sep);
      CutTwo(s, sep);
      JoinSplit(Behind(s, sep), sep);
      var rest := Split(Behind(s, sep), sep);
      assert ([Before(s, sep)] + rest)[1..] == rest;
    }
  }

  lemma {:induction false} JoinIsFree(parts: seq<string>, sep: char, other: char)
    requires sep != other && forall i :: 0 <= i < |parts| ==> Free(parts[i], other)
    ensures Free(Join(parts, sep), other)
    decreases |parts|
  {
    if |parts| > 1 { JoinIsFree(parts[1..], sep, other); }
  }

  lemma NatTextIsFree(n: nat, c: char)
    requires !IsDigit(c)
    ensures Free(NatText(n), c)
  {
  }

  // ----- The canonical text -----

  function LegText(leg: IntentLeg): string {
    Join([leg.symbol, SideText(leg.side), NatText(leg.ratio)], ':')
  }

  function LegTexts(legs: seq<IntentLeg>): seq<string> {
    seq(|legs|, i requires 0 <= i < |legs| => LegText(legs[i]))
  }

  function Parts(x: Identity): seq<string> {
    [ x.decisionId, Join(LegTexts(x.legs), ','), NatText(x.quantity), Text(Normalize(x.price)),
      x.timeInForce, x.policy ]
  }

  function Canonical(x: Identity): string {
    Join(Parts(x), '|')
  }

  /** No symbol holds one of the two outer separators, and no other text the outermost. */
  predicate IsPlain(x: Identity) {
    && Free(x.decisionId, '|') && Free(x.timeInForce, '|') && Free(x.policy, '|')
    && forall i :: 0 <= i < |x.legs| ==>
         Free(x.legs[i].symbol, '|') && Free(x.legs[i].symbol, ',')
  }

  // ----- Decoding -----

  /** Side and ratio stand behind the last two colons; the symbol may hold colons itself. */
  function DecodeLeg(s: string): Option<IntentLeg> {
    var parts := Split(s, ':');
    var n := |parts| - 2;
    if n >= 1 && parts[n] in {"buy", "sell"} && AllDigits(parts[n + 1]) && ReadNat(parts[n + 1]) >= 1
    then Some(IntentLeg(Join(parts[..n], ':'), if parts[n] == "buy" then Buy else Sell, ReadNat(parts[n + 1])))
    else None
  }

  function DecodeLegs(texts: seq<string>): Option<seq<IntentLeg>> {
    if texts == [] then Some([]) else
    var head := DecodeLeg(texts[0]);
    var tail := DecodeLegs(texts[1..]);
    if head.Some? && tail.Some? then Some([head.value] + tail.value) else None
  }

  function Decode(s: string): Option<Identity> {
    var parts := Split(s, '|');
    if |parts| != 6 then None else
    var legs := if parts[1] == "" then Some([]) else DecodeLegs(Split(parts[1], ','));
    if legs.Some? && AllDigits(parts[2]) && ReadNat(parts[2]) >= 1
    then Some(Identity(parts[0], legs.value, ReadNat(parts[2]), Read(parts[3]), parts[4], parts[5]))
    else None
  }

  lemma LegTextIsFree(leg: IntentLeg, c: char)
    requires Free(leg.symbol, c) && c in {'|', ','}
    ensures Free(LegText(leg), c)
  {
    NatTextIsFree(leg.ratio, c);
    JoinIsFree([leg.symbol, SideText(leg.side), NatText(leg.ratio)], ':', c);
  }

  lemma DecodeLegText(leg: IntentLeg)
    ensures DecodeLeg(LegText(leg)) == Some(leg) && LegText(leg) != ""
  {
    var tail := [SideText(leg.side), NatText(leg.ratio)];
    NatTextIsFree(leg.ratio, ':');
    SplitJoin(tail, ':');
    assert [leg.symbol, SideText(leg.side), NatText(leg.ratio)][1..] == tail;
    assert LegText(leg) == leg.symbol + [':'] + Join(tail, ':');
    SplitAppend(leg.symbol, ':', Join(tail, ':'));
    var parts := Split(LegText(leg), ':');
    assert parts == Split(leg.symbol, ':') + tail;
    assert parts[..|parts| - 2] == Split(leg.symbol, ':');
    JoinSplit(leg.symbol, ':');
    ReadNatText(leg.ratio);
  }

  lemma {:induction false} DecodeLegTexts(legs: seq<IntentLeg>)
    ensures DecodeLegs(LegTexts(legs)) == Some(legs)
    decreases |legs|
  {
    if legs != [] {
      DecodeLegText(legs[0]);
      DecodeLegTexts(legs[1..]);
      assert LegTexts(legs)[1..] == LegTexts(legs[1..]);
      assert legs == [legs[0]] + legs[1..];
    }
  }

  lemma DecodeJoinedLegs(legs: seq<IntentLeg>)
    requires forall i :: 0 <= i < |legs| ==> Free(legs[i].symbol, ',')
    ensures var s := Join(LegTexts(legs), ',');
      && (s == "" <==> legs == [])
      && (legs != [] ==> DecodeLegs(Split(s, ',')) == Some(legs))
  {
    if legs != [] {
      forall i | 0 <= i < |legs| ensures Free(LegTexts(legs)[i], ',') { LegTextIsFree(legs[i], ','); }
      SplitJoin(LegTexts(legs), ',');
      DecodeLegTexts(legs);
      DecodeLegText(legs[0]);
      assert LegTexts(legs)[0] == LegText(legs[0]);
    }
  }

  /** The canonical text of a plain identity decodes to it, with its price in normal form. */
  lemma DecodeCanonical(x: Identity)
    requires IsPlain(x)
    ensures Decode(Canonical(x)) == Some(x.(price := Normalize(x.price)))
  {
    forall i | 0 <= i < |x.legs| ensures Free(LegTexts(x.legs)[i], '|') { LegTextIsFree(x.legs[i], '|'); }
    JoinIsFree(LegTexts(x.legs), ',', '|');
    NatTextIsFree(x.quantity, '|');
    TextIsNumeral(Normalize(x.price));
    SplitJoin(Parts(x), '|');
    DecodeJoinedLegs(x.legs);
    ReadNatText(x.quantity);
    ReadText(Normalize(x.price));
  }

  /** Equal up to the spelling of the price. */
  predicate SameIdentity(a: Identity, b: Identity) {
    a.(price := Normalize(a.price)) == b.(price := Normalize(b.price))
  }

  lemma CanonicalIsInjective(a: Identity, b: Identity)
    requires IsPlain(a) && IsPlain(b)
    ensures Canonical(a) == Canonical(b) <==> SameIdentity(a, b)
  {
    DecodeCanonical(a);
    DecodeCanonical(b);
  }

  /** This is equality of all fields, of the price as a number, and of its sign, which
      tells two zeros apart. */
  lemma SameIdentityMeans(a: Identity, b: Identity)
    ensures SameIdentity(a, b) <==>
      a == b.(price := a.price) && Value(a.price) == Value(b.price) && a.price.negative == b.price.negative
  {
    NormalTextIffSameValue(a.price, b.price);
    SameValueMeans(a.price, b.price);
  }

  const TWO_LEGS := [IntentLeg("A", Buy, 1), IntentLeg("B", Buy, 1)]
  const ONE_LEG := [IntentLeg("A:buy:1,B", Buy, 1)]

  lemma CollidingLegs()
    ensures Join(LegTexts(TWO_LEGS), ',') == Join(LegTexts(ONE_LEG), ',')
  {
    var a, b, c := LegText(TWO_LEGS[0]), LegText(TWO_LEGS[1]), LegText(ONE_LEG[0]);
    LegTextOf(TWO_LEGS[0]);
    LegTextOf(TWO_LEGS[1]);
    LegTextOf(ONE_LEG[0]);
    assert NatText(1) == "1";
    assert a == "A:buy:1" && b == "B:buy:1" && c == "A:buy:1,B:buy:1";
    assert LegTexts(TWO_LEGS) == [a, b];
    assert LegTexts(ONE_LEG) == [c];
    JoinTwo(a, b, ',');
    assert a + [','] + b == c;
  }

  // ----- Which orders share a text -----

  /** The one leg whose text is that of all the legs: what stands before its last two colons
      is its symbol. */
  function Merge(legs: seq<IntentLeg>): IntentLeg
    requires legs != []
    decreases |legs|
  {
    if |legs| == 1 then legs[0] else
    var rest := Merge(legs[1..]);
    rest.(symbol := LegText(legs[0]) + "," + rest.symbol)
  }

  lemma LegTextWithPrefix(prefix: string, leg: IntentLeg)
    ensures LegText(leg.(symbol := prefix + leg.symbol)) == prefix + LegText(leg)
  {
    LegTextOf(leg);
    LegTextOf(leg.(symbol := prefix + leg.symbol));
  }

  lemma {:induction false} MergeText(legs: seq<IntentLeg>)
    requires legs != []
    ensures Join(LegTexts(legs), ',') == LegText(Merge(legs))
    decreases |legs|
  {
    if |legs| > 1 {
      MergeText(legs[1..]);
      assert LegTexts(legs)[1..] == LegTexts(legs[1..]);
      LegTextWithPrefix(LegText(legs[0]) + ",", Merge(legs[1..]));
    }
  }

  /** Two lists of legs that no text tells apart. */
  predicate SameMerged(a: seq<IntentLeg>, b: seq<IntentLeg>) {
    if a == [] || b == [] then a == b else Merge(a) == Merge(b)
  }

  lemma LegsTextIff(a: seq<IntentLeg>, b: seq<IntentLeg>)
    ensures Join(LegTexts(a), ',') == Join(LegTexts(b), ',') <==> SameMerged(a, b)
  {
    if a != [] {
      MergeText(a);
      DecodeLegText(Merge(a));
    }
    if b != [] {
      MergeText(b);
      DecodeLegText(Merge(b));
    }
  }

  /** No field holds the outermost separator. */
  predicate HasNoBar(x: Identity) {
    && Free(x.decisionId, '|') && Free(x.timeInForce, '|') && Free(x.policy, '|')
    && forall i :: 0 <= i < |x.legs| ==> Free(x.legs[i].symbol, '|')
  }

  lemma PartsAreFree(x: Identity)
    requires HasNoBar(x)
    ensures forall i :: 0 <= i < |Parts(x)| ==> Free(Parts(x)[i], '|')
  {
    forall i | 0 <= i < |x.legs| ensures Free(LegTexts(x.legs)[i], '|') { LegTextIsFree(x.legs[i], '|'); }
    JoinIsFree(LegTexts(x.legs), ',', '|');
    NatTextIsFree(x.quantity, '|');
    TextIsNumeral(Normalize(x.price));
  }

  /** Joined parts split into at least as many, and into as many only when none holds the
      separator. */
  lemma {:induction false} SplitCount(parts: seq<string>, sep: char)
    requires parts != []
    ensures |Split(Join(parts, sep), sep)| >= |parts|
    ensures |Split(Join(parts, sep), sep)| == |parts| ==> forall i :: 0 <= i < |parts| ==> Free(parts[i], sep)
    decreases |parts|
  {
    if |parts| > 1 {
      SplitAppend(parts[0], sep, Join(parts[1..], sep));
      SplitCount(parts[1..], sep);
      forall i | 0 <= i < |parts| && |Split(Join(parts, sep), sep)| == |parts| ensures Free(parts[i], sep) {
        if i > 0 { assert parts[i] == parts[1..][i - 1]; }
      }
    }
  }

  lemma SameParts(a: Identity, b: Identity)
    requires HasNoBar(a) && Canonical(a) == Canonical(b)
    ensures Parts(a) == Parts(b)
  {
    PartsAreFree(a);
    SplitJoin(Parts(a), '|');
    SplitCount(Parts(b), '|');
    SplitJoin(Parts(b), '|');
  }

  predicate SameApartFromLegs(a: Identity, b: Identity) {
    && a.decisionId == b.decisionId && a.quantity == b.quantity && Normalize(a.price) == Normalize(b.price)
    && a.timeInForce == b.timeInForce && a.policy == b.policy
  }

  lemma PartsIff(a: Identity, b: Identity)
    ensures Parts(a) == Parts(b) <==> SameApartFromLegs(a, b) && SameMerged(a.legs, b.legs)
  {
    LegsTextIff(a.legs, b.legs);
    var x, y := Parts(a), Parts(b);
    assert x == y <==> x[0] == y[0] && x[1] == y[1] && x[2] == y[2] && x[3] == y[3] && x[4] == y[4] && x[5] == y[5];
    ReadNatText(a.quantity);
    ReadNatText(b.quantity);
    if x[3] == y[3] { TextIsInjective(Normalize(a.price), Normalize(b.price)); }
  }

  /** Exactly which orders share the text of an order whose fields hold no bar: those that
      differ at most in how the text of the legs is cut into legs. */
  lemma CanonicalEqualIff(a: Identity, b: Identity)
    requires HasNoBar(a)
    ensures Canonical(a) == Canonical(b) <==> SameApartFromLegs(a, b) && SameMerged(a.legs, b.legs)
  {
    PartsIff(a, b);
    if Canonical(a) == Canonical(b) { SameParts(a, b); }
  }

  /** The text of the legs can be cut in another way. */
  ghost predicate IsAmbiguous(legs: seq<IntentLeg>) {
    |legs| >= 2 || (|legs| == 1 && HoldsLeg(legs[0].symbol))
  }

  /** The symbol begins with the text of a leg and a comma. */
  ghost predicate HoldsLeg(symbol: string) {
    exists leg, rest :: symbol == LegText(leg) + "," + rest
  }

  lemma OtherLegsIff(legs: seq<IntentLeg>)
    ensures IsAmbiguous(legs) <==> exists other :: other != legs && SameMerged(legs, other)
  {
    if |legs| >= 2 {
      assert SameMerged(legs, [Merge(legs)]);
    } else if |legs| == 1 && HoldsLeg(legs[0].symbol) {
      var leg, rest :| legs[0].symbol == LegText(leg) + "," + rest;
      var other := [leg, legs[0].(symbol := rest)];
      assert other[1..] == [other[1]];
      assert Merge(other) == legs[0];
      assert other != legs && SameMerged(legs, other);
    }
    if other :| other != legs && SameMerged(legs, other) {
      OnlyLongerIsOther(legs, other);
    }
  }

  lemma OnlyLongerIsOther(legs: seq<IntentLeg>, other: seq<IntentLeg>)
    requires other != legs && SameMerged(legs, other)
    ensures IsAmbiguous(legs)
  {
    if |legs| == 1 && |other| > 1 {
      assert legs[0].symbol == LegText(other[0]) + "," + Merge(other[1..]).symbol;
    }
  }

  /** Some other order has the same text. */
  ghost predicate HasDouble(x: Identity) {
    exists y :: !SameIdentity(x, y) && Canonical(x) == Canonical(y)
  }

  /** An order whose fields hold no bar shares its text with another order exactly when it
      has two legs or more, or one leg whose symbol begins with the text of a leg and a comma. */
  lemma DoubleExistsIff(x: Identity)
    requires HasNoBar(x)
    ensures HasDouble(x) <==> IsAmbiguous(x.legs)
  {
    OtherLegsIff(x.legs);
    if IsAmbiguous(x.legs) {
      var other :| other != x.legs && SameMerged(x.legs, other);
      var y := x.(legs := other);
      CanonicalEqualIff(x, y);
      assert !SameIdentity(x, y) && Canonical(x) == Canonical(y);
    }
    if HasDouble(x) {
      var y :| !SameIdentity(x, y) && Canonical(x) == Canonical(y);
      CanonicalEqualIff(x, y);
      assert y.legs != x.legs;
    }
  }

  /** Bars or not, an order of two legs or more has the text of the order of one leg that
      merges them. */
  lemma MergedHasSameText(x: Identity)
    requires |x.legs| >= 2
    ensures var y := x.(legs := [Merge(x.legs)]); Canonical(x) == Canonical(y) && !SameIdentity(x, y)
  {
    var y := x.(legs := [Merge(x.legs)]);
    PartsIff(x, y);
    assert |x.legs| != |y.legs|;
  }

  /** With a comma inside a symbol two different orders share a text. */
  lemma SeparatorsCollide(d: string, price: Dec, tif: string, policy: string)
    ensures var a := Identity(d, TWO_LEGS, 1, price, tif, policy);
      var b := Identity(d, ONE_LEG, 1, price, tif, policy);
      a != b && Canonical(a) == Canonical(b)
  {
    CollidingLegs();
    assert |TWO_LEGS| != |ONE_LEG|;
    assert Parts(Identity(d, TWO_LEGS, 1, price, tif, policy)) == Parts(Identity(d, ONE_LEG, 1, price, tif, policy));
  }

  lemma JoinTwo(a: string, b: string, sep: char)
    ensures Join([a, b], sep) == a + [sep] + b
  {
    assert [a, b][1..] == [b] && Join([b], sep) == b;
  }

  lemma LegTextOf(leg: IntentLeg)
    ensures LegText(leg) == leg.symbol + ":" + SideText(leg.side) + ":" + NatText(leg.ratio)
  {
    var parts := [leg.symbol, SideText(leg.side), NatText(leg.ratio)];
    JoinTwo(parts[1], parts[2], ':');
    assert parts[1..] == [parts[1], parts[2]];
    assert Join(parts, ':') == parts[0] + [':'] + (parts[1] + [':'] + parts[2]);
  }

  // ----- Client order ids and intents -----

  /** The client order id, for the hash in use. */
  function ClientOrderId(hash: string -> string, x: Identity): string {
    "ad-" + hash(Canonical(x))
  }

  predicate NoCollision(hash: string -> string, a: Identity, b: Identity) {
    hash(Canonical(a)) == hash(Canonical(b)) ==> Canonical(a) == Canonical(b)
  }

  lemma EqualIdsMeanEqualTexts(hash: string -> string, a: Identity, b: Identity)
    requires NoCollision(hash, a, b)
    ensures ClientOrderId(hash, a) == ClientOrderId(hash, b) <==> Canonical(a) == Canonical(b)
  {
    var x, y := hash(Canonical(a)), hash(Canonical(b));
    if "ad-" + x == "ad-" + y {
      assert x == ("ad-" + x)[3..] && y == ("ad-" + y)[3..];
    }
  }

  /** Equal ids mean equal orders, and the reverse, when no symbol holds a comma or a bar
      and no other field a bar. */
  lemma EqualIdsMeanEqualOrders(hash: string -> string, a: Identity, b: Identity)
    requires IsPlain(a) && IsPlain(b) && NoCollision(hash, a, b)
    ensures ClientOrderId(hash, a) == ClientOrderId(hash, b) <==> SameIdentity(a, b)
  {
    CanonicalIsInjective(a, b);
    EqualIdsMeanEqualTexts(hash, a, b);
  }

  /** With commas: equal ids mean orders that differ at most in how their legs are cut. */
  lemma EqualIdsIff(hash: string -> string, a: Identity, b: Identity)
    requires HasNoBar(a) && NoCollision(hash, a, b)
    ensures ClientOrderId(hash, a) == ClientOrderId(hash, b) <==> SameApartFromLegs(a, b) && SameMerged(a.legs, b.legs)
  {
    CanonicalEqualIff(a, b);
    EqualIdsMeanEqualTexts(hash, a, b);
  }

  datatype OrderIntent = OrderIntent(clientOrderId: string, identity: Identity)

  /** `OrderIntent.validate_identifier`. */
  predicate IsValid(hash: string -> string, intent: OrderIntent) {
    intent.clientOrderId == ClientOrderId(hash, intent.identity)
  }

  /** Another identity passes validation under the id of this intent. */
  ghost predicate HasValidDouble(hash: string -> string, intent: OrderIntent) {
    exists y :: !SameIdentity(intent.identity, y) && IsValid(hash, OrderIntent(intent.clientOrderId, y))
  }

  /** A valid intent whose fields hold no bar, under a hash that does not collide with its
      text, has a valid double exactly when the text of its legs can be cut in another way. */
  lemma ValidDoubleIff(hash: string -> string, intent: OrderIntent)
    requires IsValid(hash, intent) && HasNoBar(intent.identity)
    requires forall y :: NoCollision(hash, intent.identity, y)
    ensures HasValidDouble(hash, intent) <==> IsAmbiguous(intent.identity.legs)
  {
    var x := intent.identity;
    DoubleExistsIff(x);
    if HasDouble(x) {
      var y :| !SameIdentity(x, y) && Canonical(x) == Canonical(y);
      assert IsValid(hash, OrderIntent(intent.clientOrderId, y));
    }
    if HasValidDouble(hash, intent) {
      var y :| !SameIdentity(x, y) && IsValid(hash, OrderIntent(intent.clientOrderId, y));
      assert NoCollision(hash, x, y);
      EqualIdsMeanEqualTexts(hash, x, y);
    }
  }

  /** Whatever the hash and the fields, the merged order passes under the id of an intent of
      two legs or more, so of every spread. */
  lemma SpreadHasValidDouble(hash: string -> string, intent: OrderIntent)
    requires IsValid(hash, intent) && |intent.identity.legs| >= 2
    ensures HasValidDouble(hash, intent)
  {
    var x := intent.identity;
    MergedHasSameText(x);
    var y := x.(legs := [Merge(x.legs)]);
    assert !SameIdentity(x, y) && IsValid(hash, OrderIntent(intent.clientOrderId, y));
  }

  /** A structure with the id that the risk decision names. */
  datatype Candidate = Candidate(structureId: string, structure: O.Structure)

  datatype RiskDecision = RiskDecision(decisionId: string, structureId: string, approved: bool)

  function IntentLegs(legs: seq<O.Leg>): seq<IntentLeg> {
    seq(|legs|, i requires 0 <= i < |legs| =>
      IntentLeg(legs[i].contract.symbol, if legs[i].side == O.Long then Buy else Sell, legs[i].ratio))
  }

  /** `create_order_intent`. `premium` is the net premium of the structure, spelled as the
      decimal that it is; `limitPrice` overrides it. */
  function CreateOrderIntent(hash: string -> string, decision: RiskDecision, candidate: Candidate,
                             quantity: int, limitPrice: Option<Dec>, premium: Dec, policy: string)
    : Result<OrderIntent, string>
    requires Value(premium) == candidate.structure.netPremium
  {
    if decision.structureId != candidate.structureId then Err("Risk decision does not belong to candidate")
    else if !decision.approved then Err("Rejected risk decision cannot produce OrderIntent")
    else if quantity != candidate.structure.quantity then
      Err("Intent quantity must match risk-evaluated structure quantity")
    else
      var price := if limitPrice.Some? then limitPrice.value else premium;
      var x := Identity(decision.decisionId, IntentLegs(candidate.structure.legs), quantity, price, "day", policy);
      Ok(OrderIntent(ClientOrderId(hash, x), x))
  }

  predicate Carries(to: IntentLeg, from: O.Leg) {
    to.symbol == from.contract.symbol && to.ratio == from.ratio && (to.side == Buy <==> from.side == O.Long)
  }

  /** What `tampered` under the id of this intent comes to: with plain fields it passes only
      if it is the same identity; with no bar in the intent's fields, exactly if it differs at
      most in how the legs are cut. An intent of two legs or more has a valid double. */
  ghost predicate IsBound(hash: string -> string, intent: OrderIntent, tampered: Identity) {
    var x := intent.identity;
    && (IsPlain(x) && IsPlain(tampered) && NoCollision(hash, x, tampered) && !SameIdentity(x, tampered) ==>
          !IsValid(hash, OrderIntent(intent.clientOrderId, tampered)))
    && (HasNoBar(x) && NoCollision(hash, x, tampered) ==>
          (IsValid(hash, OrderIntent(intent.clientOrderId, tampered)) <==>
             SameApartFromLegs(x, tampered) && SameMerged(x.legs, tampered.legs)))
    && (|x.legs| >= 2 ==> HasValidDouble(hash, intent))
  }

  lemma ValidIntentIsBound(hash: string -> string, intent: OrderIntent, tampered: Identity)
    requires IsValid(hash, intent)
    ensures IsBound(hash, intent, tampered)
  {
    var x := intent.identity;
    if IsPlain(x) && IsPlain(tampered) && NoCollision(hash, x, tampered) { EqualIdsMeanEqualOrders(hash, x, tampered); }
    if HasNoBar(x) && NoCollision(hash, x, tampered) { EqualIdsIff(hash, x, tampered); }
    if |x.legs| >= 2 { SpreadHasValidDouble(hash, intent); }
  }

  /** An intent is created exactly for an approved decision on this structure and quantity;
      it passes validation, carries the legs that risk evaluated, and its price is worth the
      net premium of the structure unless one was given. `IsBound` says which other
      identities pass validation under its id, and `ValidDoubleIff` when there is one. */
  lemma CreatedIntentIsBound(hash: string -> string, decision: RiskDecision, candidate: Candidate, quantity: int,
                             limitPrice: Option<Dec>, premium: Dec, policy: string, tampered: Identity)
    requires Value(premium) == candidate.structure.netPremium
    ensures var r := CreateOrderIntent(hash, decision, candidate, quantity, limitPrice, premium, policy);
      && (r.Ok? <==> decision.approved && decision.structureId == candidate.structureId
                     && quantity == candidate.structure.quantity)
      && (r.Ok? ==>
            && IsValid(hash, r.value)
            && |r.value.identity.legs| == |candidate.structure.legs|
            && (forall i :: 0 <= i < |candidate.structure.legs| ==>
                  Carries(r.value.identity.legs[i], candidate.structure.legs[i]))
            && Value(r.value.identity.price) ==
                 (if limitPrice.Some? then Value(limitPrice.value) else candidate.structure.netPremium)
            && r.value.identity.decisionId == decision.decisionId && r.value.identity.quantity == quantity
            && "ad-" <= r.value.clientOrderId
            && r.value.identity.timeInForce == "day" && r.value.identity.policy == policy
            && IsBound(hash, r.value, tampered))
  {
    var r := CreateOrderIntent(hash, decision, candidate, quantity, limitPrice, premium, policy);
    if r.Ok? { ValidIntentIsBound(hash, r.value, tampered); }
  }
}
