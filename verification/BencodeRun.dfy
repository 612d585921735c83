/** The run of the parser on every text, followed also where the position wraps and moves back. */
module BencodeRun {
  import opened Bytes
  import opened Decimal
  import opened Bencode
  import opened BencodeParser

  /** What a bounded number of nested calls and loop turns comes to. */
  datatype Outcome<+T> = Ended(result: Parsed<T>) | Running

  // ----- strings -----

  /** The end of a string: `pos_ + length` in 64 bits. */
  function EndOf(colon: nat, length: nat): nat { (colon + 1 + length) % TWO_64 }

  /** `substr`: at most `length` bytes from a position on. */
  function Substr(data: seq<byte>, pos: nat, length: nat): seq<byte>
    requires pos <= |data|
  {
    if pos + length <= |data| then data[pos..pos + length] else data[pos..]
  }

  function RunString(data: seq<byte>, pos: nat): (r: Parsed<seq<byte>>)
    requires pos < |data|
    ensures r.Ok? ==> r.next <= |data|
  {
    var colon := Find(data, pos, COLON);
    if colon == |data| then Err(UnterminatedStringLength)
    else
      match Stoul(data[pos..colon])
      case Failure(cause) => Err(BadNumber(cause))
      case Success(length) =>
        if EndOf(colon, length) > |data| then Err(StringTooLong)
        else Ok(Substr(data, colon + 1, length), EndOf(colon, length))
  }

  lemma StringRunsStraight(data: seq<byte>, pos: nat)
    requires pos < |data| && ParseString(data, pos) != Err(PositionWraps)
    ensures RunString(data, pos) == ParseString(data, pos)
  {
    hide Find, Stoul;
  }

  /** The length of a string, after the length text has been read. */
  predicate HasLength(data: seq<byte>, pos: nat, colon: nat, length: nat)
    requires pos < |data|
  {
    colon == Find(data, pos, COLON) < |data| && Stoul(data[pos..colon]) == Success(length)
  }

  /** The guard that fails: the end of the string wraps to a place before its third byte. */
  predicate MovesBack(pos: nat, colon: nat, length: nat) {
    colon + 1 + length >= TWO_64 && EndOf(colon, length) < pos + 2
  }

  /** A string takes at least two bytes if and only if its end does not wrap to a place before its third byte. */
  lemma StringProgress(data: seq<byte>, pos: nat, colon: nat, length: nat)
    requires pos < |data| < TWO_63 && HasLength(data, pos, colon, length)
    ensures RunString(data, pos).Ok? ==> (RunString(data, pos).next >= pos + 2 <==> !MovesBack(pos, colon, length))
    ensures ParseString(data, pos) == Err(PositionWraps) <==> colon + 1 + length >= TWO_64
    ensures colon + 1 + length >= TWO_64 ==>
      RunString(data, pos) == Ok(data[colon + 1..], colon + 1 + length - TWO_64) && RunString(data, pos).next <= colon
  {
    assert data[pos..pos] == [];
  }

  // ----- values -----

  function RunValue(data: seq<byte>, pos: nat, fuel: nat): (r: Outcome<Value>)
    ensures r.Ended? && r.result.Ok? ==> r.result.next <= |data|
    decreases fuel
  {
    if fuel == 0 then Running
    else if pos >= |data| then Ended(Err(UnexpectedEnd))
    else if data[pos] == INT_MARK then Ended(ParseInteger(data, pos))
    else if data[pos] == LIST_MARK then RunItems(data, pos + 1, [], fuel - 1)
    else if data[pos] == DICT_MARK then RunEntries(data, pos + 1, map[], fuel - 1)
    else if IsDigit(data[pos]) then
      match RunString(data, pos)
      case Ok(s, next) => Ended(Ok(Str(s), next))
      case Err(error) => Ended(Err(error))
    else Ended(Err(InvalidData))
  }

  function RunItems(data: seq<byte>, pos: nat, items: seq<Value>, fuel: nat): (r: Outcome<Value>)
    ensures r.Ended? && r.result.Ok? ==> r.result.next <= |data|
    decreases fuel
  {
    if fuel == 0 then Running
    else if pos >= |data| then Ended(Err(UnterminatedList))
    else if data[pos] == END_MARK then Ended(Ok(List(items), pos + 1))
    else
      match RunValue(data, pos, fuel - 1)
      case Running => Running
      case Ended(Err(error)) => Ended(Err(error))
      case Ended(Ok(value, next)) => RunItems(data, next, items + [value], fuel - 1)
  }

  function RunEntries(data: seq<byte>, pos: nat, values: map<seq<byte>, Value>, fuel: nat): (r: Outcome<Value>)
    ensures r.Ended? && r.result.Ok? ==> r.result.next <= |data|
    decreases fuel
  {
    if fuel == 0 then Running
    else if pos >= |data| then Ended(Err(UnterminatedDict))
    else if data[pos] == END_MARK then Ended(Ok(Dict(values), pos + 1))
    else
      match RunString(data, pos)
      case Err(error) => Ended(Err(error))
      case Ok(key, afterKey) =>
        match RunValue(data, afterKey, fuel - 1)
        case Running => Running
        case Ended(Err(error)) => Ended(Err(error))
        case Ended(Ok(value, next)) => RunEntries(data, next, values[key := value], fuel - 1)
  }

  // ----- more fuel changes nothing -----

  lemma {:induction false} ValueStays(data: seq<byte>, pos: nat, fuel: nat, more: nat)
    requires fuel <= more && RunValue(data, pos, fuel).Ended?
    ensures RunValue(data, pos, more) == RunValue(data, pos, fuel)
    decreases fuel
  {
    hide RunItems, RunEntries, RunString, ParseInteger;
    if pos < |data| && data[pos] == LIST_MARK {
      ItemsStay(data, pos + 1, [], fuel - 1, more - 1);
    } else if pos < |data| && data[pos] == DICT_MARK {
      EntriesStay(data, pos + 1, map[], fuel - 1, more - 1);
    }
  }

  lemma {:induction false} ItemsStay(data: seq<byte>, pos: nat, items: seq<Value>, fuel: nat, more: nat)
    requires fuel <= more && RunItems(data, pos, items, fuel).Ended?
    ensures RunItems(data, pos, items, more) == RunItems(data, pos, items, fuel)
    decreases fuel
  {
    hide RunValue, RunEntries, RunString;
    if pos < |data| && data[pos] != END_MARK {
      var first := RunValue(data, pos, fuel - 1);
      ValueStays(data, pos, fuel - 1, more - 1);
      if first.result.Ok? {
        ItemsStay(data, first.result.next, items + [first.result.value], fuel - 1, more - 1);
      }
    }
  }

  lemma EntryTurn(data: seq<byte>, pos: nat, values: map<seq<byte>, Value>, fuel: nat, key: seq<byte>, afterKey: nat,
                  first: Outcome<Value>)
    requires pos < |data| && data[pos] != END_MARK && fuel > 0
    requires RunString(data, pos) == Ok(key, afterKey) && RunValue(data, afterKey, fuel - 1) == first
    ensures first.Running? ==> RunEntries(data, pos, values, fuel) == Running
    ensures first.Ended? && first.result.Err? ==> RunEntries(data, pos, values, fuel) == first
    ensures first.Ended? && first.result.Ok? ==>
      RunEntries(data, pos, values, fuel) == RunEntries(data, first.result.next, values[key := first.result.value], fuel - 1)
  {
    hide RunValue, RunItems, RunString;
  }

  lemma {:induction false} EntriesStay(data: seq<byte>, pos: nat, values: map<seq<byte>, Value>, fuel: nat, more: nat)
    requires fuel <= more && RunEntries(data, pos, values, fuel).Ended?
    ensures RunEntries(data, pos, values, more) == RunEntries(data, pos, values, fuel)
    decreases fuel
  {
    hide RunValue, RunItems, RunString;
    if pos < |data| && data[pos] != END_MARK && RunString(data, pos).Ok? {
      var key := RunString(data, pos);
      var first := RunValue(data, key.next, fuel - 1);
      EntryTurn(data, pos, values, fuel, key.value, key.next, first);
      ValueStays(data, key.next, fuel - 1, more - 1);
      EntryTurn(data, pos, values, more, key.value, key.next, first);
      if first.result.Ok? {
        EntriesStay(data, first.result.next, values[key.value := first.result.value], fuel - 1, more - 1);
      }
    }
  }

  // ----- without a wrap, the run is the straight parse -----

  /** Nested calls and loop turns that a straight parse from a position can take. */
  function Rest(data: seq<byte>, pos: nat): nat { if pos <= |data| then 2 * (|data| - pos) else 0 }

  lemma {:induction false} ValueRunsStraight(data: seq<byte>, pos: nat, fuel: nat)
    requires ParseValue(data, pos) != Err(PositionWraps) && fuel >= Rest(data, pos) + 1
    ensures RunValue(data, pos, fuel) == Ended(ParseValue(data, pos))
    decreases fuel
  {
    hide RunString, RunItems, RunEntries, ParseItems, ParseEntries, ParseString, ParseInteger;
    if pos < |data| {
      if data[pos] == LIST_MARK {
        ItemsRunStraight(data, pos + 1, [], fuel - 1);
      } else if data[pos] == DICT_MARK {
        EntriesRunStraight(data, pos + 1, map[], fuel - 1);
      } else if IsDigit(data[pos]) {
        StringRunsStraight(data, pos);
      }
    }
  }

  lemma {:induction false} ItemsRunStraight(data: seq<byte>, pos: nat, items: seq<Value>, fuel: nat)
    requires (forall x | x in items :: Valid(x)) && ParseItems(data, pos, items) != Err(PositionWraps)
    requires fuel >= Rest(data, pos) + 2
    ensures RunItems(data, pos, items, fuel) == Ended(ParseItems(data, pos, items))
    decreases fuel
  {
    hide RunValue, RunEntries, RunString, ParseValue, ParseEntries, ParseString;
    if pos < |data| && data[pos] != END_MARK {
      ValueRunsStraight(data, pos, fuel - 1);
      var first := ParseValue(data, pos);
      if first.Ok? {
        ItemsRunStraight(data, first.next, items + [first.value], fuel - 1);
      }
    }
  }

  lemma {:induction false} EntriesRunStraight(data: seq<byte>, pos: nat, values: map<seq<byte>, Value>, fuel: nat)
    requires (forall k | k in values :: Valid(values[k])) && ParseEntries(data, pos, values) != Err(PositionWraps)
    requires fuel >= Rest(data, pos) + 2
    ensures RunEntries(data, pos, values, fuel) == Ended(ParseEntries(data, pos, values))
    decreases fuel, 1
  {
    hide RunValue, RunItems, RunString, ParseValue, ParseItems, ParseString;
    if pos < |data| && data[pos] != END_MARK {
      StringRunsStraight(data, pos);
      var key := ParseString(data, pos);
      if key.Ok? {
        EntryRunsStraight(data, pos, values, fuel, key.value, key.next);
      }
    }
  }

  lemma {:induction false} EntryRunsStraight(data: seq<byte>, pos: nat, values: map<seq<byte>, Value>, fuel: nat,
                                             key: seq<byte>, afterKey: nat)
    requires (forall k | k in values :: Valid(values[k])) && pos < |data| && data[pos] != END_MARK
    requires RunString(data, pos) == ParseString(data, pos) == Ok(key, afterKey)
    requires ParseEntries(data, pos, values) != Err(PositionWraps) && fuel >= Rest(data, pos) + 2
    ensures RunEntries(data, pos, values, fuel) == Ended(ParseEntries(data, pos, values))
    decreases fuel, 0
  {
    hide RunValue, RunItems, RunString, RunEntries, ParseEntries, ParseValue, ParseItems, ParseString;
    var first := ParseValue(data, afterKey);
    if first.Err? {
      StraightEntryFails(data, pos, values, key, afterKey, first.error);
      ValueRunsStraight(data, afterKey, fuel - 1);
      EntryTurn(data, pos, values, fuel, key, afterKey, Ended(first));
    } else {
      ValueRunsStraight(data, afterKey, fuel - 1);
      EntryTurn(data, pos, values, fuel, key, afterKey, Ended(first));
      EntryStep(data, pos, values, key, afterKey, first.value, first.next);
      EntriesRunStraight(data, first.next, values[key := first.value], fuel - 1);
    }
  }

  lemma StraightEntryFails(data: seq<byte>, pos: nat, values: map<seq<byte>, Value>, key: seq<byte>, afterKey: nat,
                           error: ParseError)
    requires (forall k | k in values :: Valid(values[k])) && pos < |data| && data[pos] != END_MARK
    requires ParseString(data, pos) == Ok(key, afterKey) && ParseValue(data, afterKey) == Err(error)
    ensures ParseEntries(data, pos, values) == Err(error)
  {
    hide ParseValue, ParseItems, ParseString;
  }

  // ----- when a parse ends -----

  /** Where the parser is: at a value, or at the next item or entry of a loop. */
  datatype Place = AtValue(pos: nat) | AtItem(pos: nat) | AtEntry(pos: nat)

  /** The parse from a place ends within a number of nested calls and loop turns; what was read before does not matter. */
  predicate EndsIn(data: seq<byte>, place: Place, fuel: nat)
    decreases fuel
  {
    fuel > 0 &&
    match place
    case AtValue(pos) =>
      if pos < |data| && data[pos] == LIST_MARK then EndsIn(data, AtItem(pos + 1), fuel - 1)
      else if pos < |data| && data[pos] == DICT_MARK then EndsIn(data, AtEntry(pos + 1), fuel - 1)
      else true
    case AtItem(pos) => pos >= |data| || data[pos] == END_MARK || EndsInTurn(data, pos, place, fuel)
    case AtEntry(pos) =>
      pos >= |data| || data[pos] == END_MARK || RunString(data, pos).Err?
      || EndsInTurn(data, RunString(data, pos).next, place, fuel)
  }

  /** One turn of a loop: a value, and if it is read then the rest of the loop. */
  predicate EndsInTurn(data: seq<byte>, pos: nat, place: Place, fuel: nat)
    requires fuel > 0
    decreases fuel, 0
  {
    EndsIn(data, AtValue(pos), fuel - 1) &&
    match RunValue(data, pos, fuel - 1)
    case Ended(Ok(_, next)) => EndsIn(data, place.(pos := next), fuel - 1)
    case _ => true
  }

  lemma {:induction false} ValueEnds(data: seq<byte>, pos: nat, fuel: nat)
    ensures RunValue(data, pos, fuel).Ended? <==> EndsIn(data, AtValue(pos), fuel)
    decreases fuel, 0
  {
    hide RunString, ParseInteger;
    if fuel > 0 && pos < |data| {
      if data[pos] == LIST_MARK {
        ItemsEnd(data, pos + 1, [], fuel - 1);
      } else if data[pos] == DICT_MARK {
        EntriesEnd(data, pos + 1, map[], fuel - 1);
      }
    }
  }

  lemma {:induction false} ItemsEnd(data: seq<byte>, pos: nat, items: seq<Value>, fuel: nat)
    ensures RunItems(data, pos, items, fuel).Ended? <==> EndsIn(data, AtItem(pos), fuel)
    decreases fuel, 1
  {
    hide RunString, RunValue, RunEntries;
    if fuel > 0 && pos < |data| && data[pos] != END_MARK {
      var first := RunValue(data, pos, fuel - 1);
      ValueEnds(data, pos, fuel - 1);
      if first.Ended? && first.result.Ok? {
        ItemsEnd(data, first.result.next, items + [first.result.value], fuel - 1);
      }
    }
  }

  lemma {:induction false} EntriesEnd(data: seq<byte>, pos: nat, values: map<seq<byte>, Value>, fuel: nat)
    ensures RunEntries(data, pos, values, fuel).Ended? <==> EndsIn(data, AtEntry(pos), fuel)
    decreases fuel, 1
  {
    hide RunString, RunValue, RunItems;
    if fuel > 0 && pos < |data| && data[pos] != END_MARK && RunString(data, pos).Ok? {
      var key := RunString(data, pos);
      var first := RunValue(data, key.next, fuel - 1);
      ValueEnds(data, key.next, fuel - 1);
      EntryTurn(data, pos, values, fuel, key.value, key.next, first);
      if first.Ended? && first.result.Ok? {
        EntriesEnd(data, first.result.next, values[key.value := first.result.value], fuel - 1);
      }
    }
  }

  lemma {:induction false} EndsLonger(data: seq<byte>, place: Place, fuel: nat, more: nat)
    requires fuel <= more && EndsIn(data, place, fuel)
    ensures EndsIn(data, place, more)
    decreases fuel
  {
    hide RunString, RunValue;
    var pos := place.pos;
    if pos < |data| {
      if place.AtValue? {
        if data[pos] == LIST_MARK {
          EndsLonger(data, AtItem(pos + 1), fuel - 1, more - 1);
        } else if data[pos] == DICT_MARK {
          EndsLonger(data, AtEntry(pos + 1), fuel - 1, more - 1);
        }
      } else if place.AtItem? && data[pos] != END_MARK {
        TurnEndsLonger(data, pos, place, fuel, more);
      } else if place.AtEntry? && data[pos] != END_MARK && RunString(data, pos).Ok? {
        TurnEndsLonger(data, RunString(data, pos).next, place, fuel, more);
      }
    }
  }

  lemma {:induction false} TurnEndsLonger(data: seq<byte>, pos: nat, place: Place, fuel: nat, more: nat)
    requires 0 < fuel <= more && EndsInTurn(data, pos, place, fuel)
    ensures EndsInTurn(data, pos, place, more)
    decreases fuel, 0
  {
    hide RunString, RunValue;
    EndsLonger(data, AtValue(pos), fuel - 1, more - 1);
    ValueEnds(data, pos, fuel - 1);
    ValueStays(data, pos, fuel - 1, more - 1);
    match RunValue(data, pos, fuel - 1)
    case Ended(Ok(_, next)) => EndsLonger(data, place.(pos := next), fuel - 1, more - 1);
    case _ =>
  }

  /** A parse that needs all its fuel has a part that needs all but one of it. */
  lemma {:induction false} NeedyPart(data: seq<byte>, place: Place, fuel: nat) returns (part: Place)
    requires fuel > 0 && EndsIn(data, place, fuel + 1) && !EndsIn(data, place, fuel) && place.pos <= |data|
    ensures part.pos <= |data| && EndsIn(data, part, fuel) && !EndsIn(data, part, fuel - 1)
  {
    hide RunString, RunValue;
    var pos := place.pos;
    match place {
      case AtValue(_) => part := if data[pos] == LIST_MARK then AtItem(pos + 1) else AtEntry(pos + 1);
      case AtItem(_) => part := NeedyTurn(data, pos, place, fuel);
      case AtEntry(_) => part := NeedyTurn(data, RunString(data, pos).next, place, fuel);
    }
  }

  lemma NeedyTurn(data: seq<byte>, pos: nat, place: Place, fuel: nat) returns (part: Place)
    requires fuel > 0 && EndsInTurn(data, pos, place, fuel + 1) && !EndsInTurn(data, pos, place, fuel) && pos <= |data|
    ensures part.pos <= |data| && EndsIn(data, part, fuel) && !EndsIn(data, part, fuel - 1)
  {
    hide RunString, RunValue;
    part := AtValue(pos);
    if EndsIn(data, part, fuel - 1) {
      ValueEnds(data, pos, fuel - 1);
      ValueStays(data, pos, fuel - 1, fuel);
      part := place.(pos := RunValue(data, pos, fuel - 1).result.next);
    }
  }

  /** The places of a text. */
  function Places(last: nat): set<Place> {
    (if last == 0 then {} else Places(last - 1)) + {AtValue(last)} + {AtItem(last)} + {AtEntry(last)}
  }

  lemma {:induction false} CountPlaces(last: nat)
    ensures |Places(last)| <= 3 * (last + 1)
  {
    if last > 0 {
      CountPlaces(last - 1);
    }
    var earlier: set<Place> := if last == 0 then {} else Places(last - 1);
    OneMore(earlier, AtValue(last));
    OneMore(earlier + {AtValue(last)}, AtItem(last));
    OneMore(earlier + {AtValue(last)} + {AtItem(last)}, AtEntry(last));
  }

  lemma OneMore<T>(s: set<T>, x: T)
    ensures |s + {x}| <= |s| + 1
  {
    if x in s {
      assert s + {x} == s;
    }
  }

  lemma {:induction false} IsPlace(place: Place, last: nat)
    requires place.pos <= last
    ensures place in Places(last)
    decreases last
  {
    if place.pos < last {
      IsPlace(place, last - 1);
    }
  }

  /** As many places as the parse needs fuel are all different. */
  lemma {:induction false} NeedyPlaces(data: seq<byte>, place: Place, fuel: nat) returns (places: set<Place>)
    requires EndsIn(data, place, fuel + 1) && !EndsIn(data, place, fuel) && place.pos <= |data|
    ensures |places| == fuel + 1 && forall p | p in places :: p.pos <= |data| && EndsIn(data, p, fuel + 1)
    decreases fuel
  {
    hide EndsIn;
    if fuel == 0 {
      places := {place};
    } else {
      var part := NeedyPart(data, place, fuel);
      places := NeedyPlaces(data, part, fuel - 1);
      forall p | p in places ensures EndsIn(data, p, fuel + 1) {
        EndsLonger(data, p, fuel, fuel + 1);
      }
      places := places + {place};
    }
  }

  lemma {:induction false} LeastFuel(data: seq<byte>, place: Place, fuel: nat) returns (least: nat)
    requires EndsIn(data, place, fuel)
    ensures least < fuel && EndsIn(data, place, least + 1) && !EndsIn(data, place, least)
  {
    if EndsIn(data, place, fuel - 1) {
      least := LeastFuel(data, place, fuel - 1);
    } else {
      least := fuel - 1;
    }
  }

  lemma {:induction false} SubsetIsSmaller<T>(a: set<T>, b: set<T>)
    requires a <= b
    ensures |a| <= |b|
  {
    if a != {} {
      var x :| x in a;
      SubsetIsSmaller(a - {x}, b - {x});
    }
  }

  /** More nested calls and loop turns than there are places: some place has come back. */
  function Bound(data: seq<byte>): nat { 3 * (|data| + 1) }

  lemma EndsWithinPlaces(data: seq<byte>, place: Place, fuel: nat)
    requires place.pos <= |data| && EndsIn(data, place, fuel)
    ensures EndsIn(data, place, Bound(data))
  {
    hide EndsIn, Places;
    var least := LeastFuel(data, place, fuel);
    var places := NeedyPlaces(data, place, least);
    forall p | p in places ensures p in Places(|data|) {
      IsPlace(p, |data|);
    }
    CountPlaces(|data|);
    SubsetIsSmaller(places, Places(|data|));
    EndsLonger(data, place, least + 1, Bound(data));
  }

  /** A parse that ends at all ends within the bound. */
  lemma EndsWithinBound(data: seq<byte>, pos: nat, fuel: nat)
    requires pos <= |data| && RunValue(data, pos, fuel).Ended?
    ensures RunValue(data, pos, Bound(data)) == RunValue(data, pos, fuel)
  {
    hide RunValue, EndsIn;
    ValueEnds(data, pos, fuel);
    EndsWithinPlaces(data, AtValue(pos), fuel);
    ValueEnds(data, pos, Bound(data));
    ValueStays(data, pos, fuel, Bound(data) + fuel);
    ValueStays(data, pos, Bound(data), Bound(data) + fuel);
  }
}
