/** The cache of hidden cards whose sizes stand for those of the rows: one card per distinct key. */
module CardSizing {
  /** Everything that the size of a card can depend on, aside from the width available. */
  datatype SizeHintCacheKey = SizeHintCacheKey(text1: string, text2: string, text3: string, messages: seq<string>,
                                               details: seq<string>, isGeneralInfo: bool)

  class Card {
    const minWidth: int

    constructor (minWidth: int)
      ensures this.minWidth == minWidth
    {
      this.minWidth := minWidth;
    }
  }

  /** A card and the number of rows that use it. */
  datatype Entry = Entry(card: Card, count: int)

  /** The rows with a key. */
  function RowsWith(keys: map<int, SizeHintCacheKey>, key: SizeHintCacheKey): set<int> {
    set r | r in keys && keys[r] == key
  }

  /** Each key in use has an entry, and each entry counts the rows that use it, of which there are some. */
  ghost predicate Counts(keys: map<int, SizeHintCacheKey>, cards: map<SizeHintCacheKey, Entry>) {
    (forall r :: r in keys ==> keys[r] in cards) &&
    (forall k :: k in cards ==> cards[k].count == |RowsWith(keys, k)| > 0)
  }

  lemma EntryHasRow(keys: map<int, SizeHintCacheKey>, cards: map<SizeHintCacheKey, Entry>, key: SizeHintCacheKey)
    requires Counts(keys, cards) && key in cards
    ensures exists r :: r in keys && keys[r] == key
  {
    if forall r: int :: r in keys ==> keys[r] != key {
      NoRows(keys, key);
    }
  }

  lemma NoRows(keys: map<int, SizeHintCacheKey>, key: SizeHintCacheKey)
    requires forall r: int :: r in keys ==> keys[r] != key
    ensures |RowsWith(keys, key)| == 0
  {
    var rows: set<int> := RowsWith(keys, key);
    assert forall r: int :: r !in rows;
    assert rows == {};
  }

  lemma RowsWithout(keys: map<int, SizeHintCacheKey>, row: int, key: SizeHintCacheKey)
    requires row in keys
    ensures |RowsWith(keys - {row}, key)| == |RowsWith(keys, key)| - (if keys[row] == key then 1 else 0)
  {
    assert RowsWith(keys - {row}, key) == RowsWith(keys, key) - {row};
  }

  lemma RowsWithNew(keys: map<int, SizeHintCacheKey>, row: int, new_: SizeHintCacheKey, key: SizeHintCacheKey)
    requires row !in keys
    ensures |RowsWith(keys[row := new_], key)| == |RowsWith(keys, key)| + (if new_ == key then 1 else 0)
  {
    if new_ == key {
      assert RowsWith(keys[row := new_], key) == RowsWith(keys, key) + {row};
    } else {
      assert RowsWith(keys[row := new_], key) == RowsWith(keys, key);
    }
  }

  function Released(cards: map<SizeHintCacheKey, Entry>, key: SizeHintCacheKey): map<SizeHintCacheKey, Entry>
    requires key in cards
  {
    if cards[key].count == 1 then cards - {key} else cards[key := Entry(cards[key].card, cards[key].count - 1)]
  }

  /** Taking a row's share off its entry is right for the remaining rows. */
  lemma ReleaseKeepsCounts(keys: map<int, SizeHintCacheKey>, cards: map<SizeHintCacheKey, Entry>, row: int)
    requires Counts(keys, cards) && row in keys
    ensures Counts(keys - {row}, Released(cards, keys[row]))
  {
    forall k ensures |RowsWith(keys - {row}, k)| == |RowsWith(keys, k)| - (if keys[row] == k then 1 else 0) {
      RowsWithout(keys, row, k);
    }
    forall r | r in keys - {row} ensures keys[r] in Released(cards, keys[row]) {
      assert keys[r] == keys[row] ==> r in RowsWith(keys - {row}, keys[row]);
    }
  }

  /** Adding a row's share to the entry of its key is right with the row. */
  lemma AcquireKeepsCounts(keys: map<int, SizeHintCacheKey>, cards: map<SizeHintCacheKey, Entry>, row: int,
                           key: SizeHintCacheKey, card: Card)
    requires Counts(keys, cards) && row !in keys && (key in cards ==> card == cards[key].card)
    ensures Counts(keys[row := key],
                   cards[key := Entry(card, (if key in cards then cards[key].count else 0) + 1)])
  {
    forall k ensures |RowsWith(keys[row := key], k)| == |RowsWith(keys, k)| + (if key == k then 1 else 0) {
      RowsWithNew(keys, row, key, k);
    }
    if key !in cards {
      assert forall r :: r in keys ==> keys[r] != key;
      assert RowsWith(keys, key) == {};
    }
  }

  /** The live cards are those of the entries, one each, and as wide as their keys make them. */
  ghost predicate Owns(cards: map<SizeHintCacheKey, Entry>, live: set<Card>, widthOf: SizeHintCacheKey -> int) {
    (forall k :: k in cards ==> cards[k].card in live && cards[k].card.minWidth == widthOf(k)) &&
    (forall c :: c in live ==> exists k :: k in cards && cards[k].card == c) &&
    (forall k, l :: k in cards && l in cards && cards[k].card == cards[l].card ==> k == l)
  }

  /** Changing a count does not change who owns what. */
  lemma OwnsAfterCounting(cards: map<SizeHintCacheKey, Entry>, live: set<Card>, widthOf: SizeHintCacheKey -> int,
                          key: SizeHintCacheKey, count: int)
    requires Owns(cards, live, widthOf) && key in cards
    ensures Owns(cards[key := Entry(cards[key].card, count)], live, widthOf)
  {
  }

  lemma OwnsAfterDeleting(cards: map<SizeHintCacheKey, Entry>, live: set<Card>, widthOf: SizeHintCacheKey -> int,
                          key: SizeHintCacheKey)
    requires Owns(cards, live, widthOf) && key in cards
    ensures Owns(cards - {key}, live - {cards[key].card}, widthOf)
  {
  }

  lemma OwnsAfterAdding(cards: map<SizeHintCacheKey, Entry>, live: set<Card>, widthOf: SizeHintCacheKey -> int,
                        key: SizeHintCacheKey, card: Card)
    requires Owns(cards, live, widthOf) && key !in cards && card !in live && card.minWidth == widthOf(key)
    ensures Owns(cards[key := Entry(card, 1)], live + {card}, widthOf)
  {
  }

  class CardSizingCache {
    /** The least width of a card with the content of a key. */
    const widthOf: SizeHintCacheKey -> int
    var keyCache: map<int, SizeHintCacheKey>
    var cardCache: map<SizeHintCacheKey, Entry>
    /** The cards that have been made and not deleted. */
    ghost var live: set<Card>

    ghost predicate Valid()
      reads this
    {
      Counts(keyCache, cardCache) && Owns(cardCache, live, widthOf)
    }

    constructor (widthOf: SizeHintCacheKey -> int)
      ensures Valid() && keyCache == map[] && live == {} && this.widthOf == widthOf
    {
      this.widthOf := widthOf;
      keyCache, cardCache, live := map[], map[], {};
    }

    /** Deletes all cards. */
    method Clear()
      modifies this
      ensures Valid() && keyCache == map[] && cardCache == map[] && live == {}
    {
      keyCache := map[];
      live := {};
      cardCache := map[];
    }

    /** Takes a row's share off the entry of its key, and deletes the card if no row is left. */
    method Release(row: int)
      requires Valid() && row in keyCache
      modifies this`cardCache, this`live
      ensures Counts(keyCache - {row}, cardCache) && Owns(cardCache, live, widthOf) && live <= old(live)
      ensures keyCache[row] in old(cardCache) && cardCache == Released(old(cardCache), keyCache[row])
    {
      hide Counts, Owns, RowsWith;
      UsesItsEntry(row);
      ReleaseKeepsCounts(keyCache, cardCache, row);
      var oldCacheKey := keyCache[row];
      var entry := cardCache[oldCacheKey];
      OwnsAfterCounting(cardCache, live, widthOf, oldCacheKey, entry.count - 1);
      cardCache := cardCache[oldCacheKey := Entry(entry.card, entry.count - 1)];
      if entry.count - 1 == 0 {
        OwnsAfterDeleting(cardCache, live, widthOf, oldCacheKey);
        live := live - {entry.card};
        assert cardCache - {oldCacheKey} == old(cardCache) - {oldCacheKey};
        cardCache := cardCache - {oldCacheKey};
      }
    }

    /** Adds a row's share to the entry of its key, making the card if there is none. */
    method Acquire(key: SizeHintCacheKey, ghost others: map<int, SizeHintCacheKey>, ghost row: int)
      returns (card: Card)
      requires Counts(others, cardCache) && Owns(cardCache, live, widthOf) && row !in others
      modifies this`cardCache, this`live
      ensures Counts(others[row := key], cardCache) && Owns(cardCache, live, widthOf)
      ensures key in cardCache && card == cardCache[key].card && card in live
      ensures live == if key in old(cardCache) then old(live) else old(live) + {card}
    {
      assert key in cardCache ==> cardCache[key].card in live;
      hide Counts, Owns;
      if key in cardCache {
        card := cardCache[key].card;
        AcquireKeepsCounts(others, cardCache, row, key, card);
        OwnsAfterCounting(cardCache, live, widthOf, key, cardCache[key].count + 1);
        cardCache := cardCache[key := Entry(card, cardCache[key].count + 1)];
      } else {
        card := new Card(widthOf(key));
        AcquireKeepsCounts(others, cardCache, row, key, card);
        OwnsAfterAdding(cardCache, live, widthOf, key, card);
        live := live + {card};
        cardCache := cardCache[key := Entry(card, 1)];
      }
    }

    lemma UsesItsEntry(row: int)
      requires Valid() && row in keyCache
      ensures keyCache[row] in cardCache && cardCache[keyCache[row]].card in live
    {
    }

    /** The card of a key. There is one exactly if a row has the key, and it is live. */
    method GetCard(key: SizeHintCacheKey) returns (card: Card?)
      requires Valid()
      ensures card != null <==> exists r :: r in keyCache && keyCache[r] == key
      ensures card != null ==> card in live && card.minWidth == widthOf(key) && card == cardCache[key].card
    {
      if key in cardCache {
        EntryHasRow(keyCache, cardCache, key);
      }
      card := if key in cardCache then cardCache[key].card else null;
    }

    /** Brings one row up to date. An index off the end of the model has no card. */
    method UpdateIndex(model: seq<SizeHintCacheKey>, row: int) returns (card: Card?)
      requires Valid()
      modifies this
      ensures Valid() && keyCache == UpdatedKeys(old(keyCache), model, row)
      ensures card != null <==> 0 <= row < |model|
      ensures 0 <= row < |model| ==>
        model[row] in cardCache && card == cardCache[model[row]].card && card in live
    {
      hide Counts, Owns;
      if !(0 <= row < |model|) {
        return null;
      }
      var newCacheKey := model[row];
      if row in keyCache {
        UsesItsEntry(row);
        if keyCache[row] == newCacheKey {
          assert keyCache[row := newCacheKey] == keyCache;
          return cardCache[newCacheKey].card;
        }
        Release(row);
      } else {
        assert keyCache - {row} == keyCache;
      }
      card := Acquire(newCacheKey, keyCache - {row}, row);
      assert (keyCache - {row})[row := newCacheKey] == keyCache[row := newCacheKey];
      keyCache := keyCache[row := newCacheKey];
    }

    /** Brings a range of rows up to date, the last one included. */
    method UpdateRange(model: seq<SizeHintCacheKey>, firstRow: int, lastRow: int)
      requires Valid()
      modifies this
      ensures Valid()
      ensures keyCache == UpdatedRange(old(keyCache), model, firstRow, lastRow + 1)
    {
      var row := firstRow;
      while row <= lastRow
        invariant Valid() && (row <= lastRow + 1 || row == firstRow)
        invariant keyCache == UpdatedRange(old(keyCache), model, firstRow, row)
      {
        var card := UpdateIndex(model, row);
        row := row + 1;
      }
    }

    /** Brings all rows up to date. It asks for one row too many, which has no index. */
    method UpdateAll(model: seq<SizeHintCacheKey>)
      requires Valid()
      modifies this
      ensures Valid()
      ensures IsUpToDate(keyCache, model)
      ensures forall r :: !(0 <= r < |model|) ==>
        (r in keyCache <==> r in old(keyCache)) && (r in keyCache ==> keyCache[r] == old(keyCache)[r])
    {
      UpdatedRangeIs(keyCache, model, 0, |model| + 1);
      UpdateRange(model, 0, |model|);
    }

    /** The largest least width of any row's card. */
    method GetLargestMinWidth() returns (largest: int)
      requires Valid()
      ensures IsLargest(largest, keyCache, widthOf)
    {
      largest := 0;
      var keys := cardCache.Keys;
      while keys != {}
        invariant keys <= cardCache.Keys && largest >= 0
        invariant forall k :: k in cardCache && k !in keys ==> widthOf(k) <= largest
        invariant largest == 0 || exists k :: k in cardCache && widthOf(k) == largest
      {
        var key :| key in keys;
        var minWidth := cardCache[key].card.minWidth;
        if minWidth > largest {
          largest := minWidth;
        }
        keys := keys - {key};
      }
      if largest != 0 {
        ghost var k :| k in cardCache && widthOf(k) == largest;
        EntryHasRow(keyCache, cardCache, k);
      }
    }
  }

  /** The least number, from zero on, that no row's width passes. */
  ghost predicate IsLargest(largest: int, keys: map<int, SizeHintCacheKey>, widthOf: SizeHintCacheKey -> int) {
    largest >= 0 && (forall r :: r in keys ==> widthOf(keys[r]) <= largest) &&
    (largest == 0 || exists r :: r in keys && widthOf(keys[r]) == largest)
  }

  /** Each row of the model has its key. Rows off the model may have keys too. */
  ghost predicate IsUpToDate(keys: map<int, SizeHintCacheKey>, model: seq<SizeHintCacheKey>) {
    forall r :: 0 <= r < |model| ==> r in keys && keys[r] == model[r]
  }

  /** The width is zero or that of some row of the model. */
  ghost predicate IsWidthOfModel(largest: int, model: seq<SizeHintCacheKey>, widthOf: SizeHintCacheKey -> int) {
    largest == 0 || exists r :: 0 <= r < |model| && widthOf(model[r]) == largest
  }

  /** The width asks no more than zero, or no more than some row of the model does. */
  ghost predicate IsMatched(width: int, model: seq<SizeHintCacheKey>, widthOf: SizeHintCacheKey -> int) {
    width <= 0 || exists r :: 0 <= r < |model| && width <= widthOf(model[r])
  }

  /** The largest width is the model's exactly if every row that is no longer in the model is matched by one that is. */
  lemma LargestIsOfModelExactly(largest: int, keys: map<int, SizeHintCacheKey>, model: seq<SizeHintCacheKey>,
                                widthOf: SizeHintCacheKey -> int)
    requires IsLargest(largest, keys, widthOf) && IsUpToDate(keys, model)
    ensures IsWidthOfModel(largest, model, widthOf) <==>
      forall r :: r in keys && !(0 <= r < |model|) ==> IsMatched(widthOf(keys[r]), model, widthOf)
  {
    if largest != 0 && forall r :: r in keys && !(0 <= r < |model|) ==> IsMatched(widthOf(keys[r]), model, widthOf) {
      var r :| r in keys && widthOf(keys[r]) == largest;
      if !(0 <= r < |model|) {
        var m :| 0 <= m < |model| && largest <= widthOf(model[m]);
        assert m in keys;
      }
    }
  }

  /** Rows that the model has lost go on counting: nothing takes them out but Clear. */
  method LostRowStillCounts(short: SizeHintCacheKey, long: SizeHintCacheKey, widthOf: SizeHintCacheKey -> int)
    returns (largest: int)
    requires 0 < widthOf(short) < widthOf(long)
    ensures largest >= widthOf(long) && !IsWidthOfModel(largest, [short], widthOf)
  {
    hide Counts, Owns;
    var cache := new CardSizingCache(widthOf);
    cache.UpdateAll([short, long]);
    assert cache.keyCache[1] == [short, long][1];
    cache.UpdateAll([short]);
    assert cache.keyCache[1] == long;
    largest := cache.GetLargestMinWidth();
  }

  /** The keys of the rows after one row has been brought up to date. */
  function UpdatedKeys(keys: map<int, SizeHintCacheKey>, model: seq<SizeHintCacheKey>, row: int)
    : map<int, SizeHintCacheKey>
  {
    if 0 <= row < |model| then keys[row := model[row]] else keys
  }

  /** The keys of the rows after those from `first` up to `end` have been brought up to date. */
  function UpdatedRange(keys: map<int, SizeHintCacheKey>, model: seq<SizeHintCacheKey>, first: int, end: int)
    : map<int, SizeHintCacheKey>
    decreases end - first
  {
    if end <= first then keys else UpdatedKeys(UpdatedRange(keys, model, first, end - 1), model, end - 1)
  }

  lemma {:induction false} UpdatedRangeIs(keys: map<int, SizeHintCacheKey>, model: seq<SizeHintCacheKey>, first: int,
                                          end: int)
    ensures forall r :: first <= r < end && 0 <= r < |model| ==>
      r in UpdatedRange(keys, model, first, end) && UpdatedRange(keys, model, first, end)[r] == model[r]
    ensures forall r :: !(first <= r < end && 0 <= r < |model|) ==>
      (r in UpdatedRange(keys, model, first, end) <==> r in keys) &&
      (r in keys ==> UpdatedRange(keys, model, first, end)[r] == keys[r])
    decreases end - first
  {
    if end > first {
      UpdatedRangeIs(keys, model, first, end - 1);
    }
  }
}
