/** The fixed scoring key of the HEXACO-100 inventory: which items are
    reverse-keyed, which items make up each trait scale, and the order and
    names of the output columns. Item "qN" is identified by its number N. */
module Inventory {

  /** The inventory has items q1 .. q100. */
  const ItemCount: nat := 100

  /** The seven scales scored, six broad traits and the Altruism facet. */
  datatype Trait =
    | HonestyHumility
    | Emotionality
    | Extraversion
    | Agreeableness
    | Conscientiousness
    | Openness
    | Altruism

  /** The output columns, in the order they are merged into the result. */
  const Traits: seq<Trait> :=
    [HonestyHumility, Emotionality, Extraversion, Agreeableness, Conscientiousness, Openness, Altruism]

  /** The column header of each scale. */
  function Name(t: Trait): string {
    match t
    case HonestyHumility => "Honesty-Humility"
    case Emotionality => "Emotionality"
    case Extraversion => "Extraversion"
    case Agreeableness => "Agreeableness"
    case Conscientiousness => "Conscientiousness"
    case Openness => "Openness to Experience"
    case Altruism => "Altruism"
  }

  /** The seven headers are pairwise different, so no merge of one more
      column ever clashes with a column already in the table. */
  lemma NamesDistinct()
    ensures forall i, j :: 0 <= i < j < |Traits| ==> Name(Traits[i]) != Name(Traits[j])
  {
  }

  /** The items of each scale, in the order the scoring script lists them. */
  function Items(t: Trait): (items: seq<int>)
    ensures |items| == if t == Altruism then 4 else 16
  {
    match t
    case HonestyHumility => [6, 30, 54, 78, 12, 36, 60, 84, 18, 42, 66, 90, 24, 48, 72, 96]
    case Emotionality => [5, 29, 53, 77, 11, 35, 59, 83, 17, 41, 65, 89, 23, 47, 71, 95]
    case Extraversion => [4, 28, 52, 76, 10, 34, 58, 82, 16, 40, 64, 88, 22, 46, 70, 94]
    case Agreeableness => [3, 27, 51, 75, 9, 33, 57, 81, 15, 39, 63, 87, 21, 45, 69, 93]
    case Conscientiousness => [2, 26, 50, 74, 8, 32, 56, 80, 14, 38, 62, 86, 20, 44, 68, 92]
    case Openness => [1, 25, 49, 73, 7, 31, 55, 79, 13, 37, 61, 85, 19, 43, 67, 91]
    case Altruism => [97, 98, 99, 100]
  }

  /** The reverse-keyed items of each scale, in the order the scoring script
      lists them. */
  function ReverseKeyed(t: Trait): (items: seq<int>)
  {
    match t
    case HonestyHumility => [6, 54, 12, 36, 84, 42, 66, 90, 72, 96]
    case Emotionality => [29, 77, 35, 59, 41, 89, 95]
    case Extraversion => [52, 76, 10, 82, 16, 70, 94]
    case Agreeableness => [51, 75, 9, 15, 63, 87, 21, 93]
    case Conscientiousness => [50, 74, 56, 80, 38, 20, 44, 92]
    case Openness => [1, 25, 55, 79, 13, 85, 19, 91]
    case Altruism => [99, 100]
  }

  /** The script's single list of the items to reverse, in its order; it is
      broken into lines where one scale's reverse-keyed items end and the next
      scale's begin. */
  const ReversalItems: seq<int> :=
    [6, 54, 12, 36, 84, 42, 66, 90, 72, 96] +
    [29, 77, 35, 59, 41, 89, 95] +
    [52, 76, 10, 82, 16, 70, 94] +
    [51, 75, 9, 15, 63, 87, 21, 93] +
    [50, 74, 56, 80, 38, 20, 44, 92] +
    [1, 25, 55, 79, 13, 85, 19, 91] +
    [99, 100]

  predicate IsReversalItem(q: int) {
    q in ReversalItems
  }

  /** The inventory's layout rule, independent of the lists above: the first
      96 items cycle through the six broad traits, so an item's trait is given
      by its residue modulo 6, and the last four items are the Altruism facet. */
  function TraitOf(q: int): Trait
    requires 1 <= q <= ItemCount
  {
    if q > 96 then Altruism
    else if q % 6 == 0 then HonestyHumility
    else if q % 6 == 5 then Emotionality
    else if q % 6 == 4 then Extraversion
    else if q % 6 == 3 then Agreeableness
    else if q % 6 == 2 then Conscientiousness
    else Openness
  }

  predicate Distinct(s: seq<int>) {
    forall i, j :: 0 <= i < j < |s| ==> s[i] != s[j]
  }

  /** The item at position k of a broad trait's list: the list runs through
      the trait's four facets, four items each, and the items of one facet lie
      24 apart. For example Honesty-Humility starts 6, 30, 54, 78, 12, ... */
  function BroadItem(first: int, k: int): int {
    first + 6 * (k / 4) + 24 * (k % 4)
  }

  /** The first item of each broad trait's list; the Altruism facet does not
      follow the facet layout. */
  function FirstItem(t: Trait): int
    requires t != Altruism
  {
    match t
    case HonestyHumility => 6
    case Emotionality => 5
    case Extraversion => 4
    case Agreeableness => 3
    case Conscientiousness => 2
    case Openness => 1
  }

  lemma HonestyHumilityLayout()
    ensures forall k :: 0 <= k < 16 ==> Items(HonestyHumility)[k] == BroadItem(6, k)
  {
  }

  lemma EmotionalityLayout()
    ensures forall k :: 0 <= k < 16 ==> Items(Emotionality)[k] == BroadItem(5, k)
  {
  }

  lemma ExtraversionLayout()
    ensures forall k :: 0 <= k < 16 ==> Items(Extraversion)[k] == BroadItem(4, k)
  {
  }

  lemma AgreeablenessLayout()
    ensures forall k :: 0 <= k < 16 ==> Items(Agreeableness)[k] == BroadItem(3, k)
  {
  }

  lemma ConscientiousnessLayout()
    ensures forall k :: 0 <= k < 16 ==> Items(Conscientiousness)[k] == BroadItem(2, k)
  {
  }

  lemma OpennessLayout()
    ensures forall k :: 0 <= k < 16 ==> Items(Openness)[k] == BroadItem(1, k)
  {
  }

  /** Every broad trait's list follows the facet layout. */
  lemma BroadItemsLayout(t: Trait)
    requires t != Altruism
    ensures |Items(t)| == 16
    ensures forall k :: 0 <= k < 16 ==> Items(t)[k] == BroadItem(FirstItem(t), k)
  {
    match t
    case HonestyHumility => HonestyHumilityLayout();
    case Emotionality => EmotionalityLayout();
    case Extraversion => ExtraversionLayout();
    case Agreeableness => AgreeablenessLayout();
    case Conscientiousness => ConscientiousnessLayout();
    case Openness => OpennessLayout();
  }

  /** Distinct positions of the facet layout hold distinct items. */
  lemma BroadItemInjective(first: int, i: int, j: int)
    requires 0 <= i < 16 && 0 <= j < 16 && i != j
    ensures BroadItem(first, i) != BroadItem(first, j)
  {
    if i % 4 == j % 4 {
      assert i / 4 != j / 4;
    } else {
      assert 0 <= 6 * (i / 4) <= 18 && 0 <= 6 * (j / 4) <= 18;
    }
  }

  /** The facet layout covers exactly the items of q1 .. q96 with the first
      item's residue modulo 6. */
  lemma BroadItemResidue(first: int, k: int)
    requires 1 <= first <= 6 && 0 <= k < 16
    ensures 1 <= BroadItem(first, k) <= 96 && BroadItem(first, k) % 6 == first % 6
  {
  }

  lemma BroadItemCovers(first: int, q: int)
    requires 1 <= first <= 6 && 1 <= q <= 96 && q % 6 == first % 6
    ensures BroadItem(first, 4 * (((q - first) / 6) % 4) + ((q - first) / 6) / 4) == q
  {
    var m := (q - first) / 6;
    assert q == first + 6 * m && 0 <= m < 16;
    var k := 4 * (m % 4) + m / 4;
    assert k / 4 == m % 4 && k % 4 == m / 4;
  }

  /** Every scale lists items of the inventory. */
  lemma ItemsInRange(t: Trait)
    ensures forall k :: 0 <= k < |Items(t)| ==> 1 <= Items(t)[k] <= ItemCount
  {
    if t != Altruism {
      BroadItemsLayout(t);
      forall k | 0 <= k < 16 ensures 1 <= Items(t)[k] <= ItemCount {
        BroadItemResidue(FirstItem(t), k);
      }
    }
  }

  /** Each scale lists distinct items of the inventory: 16 for a broad trait,
      4 for Altruism. */
  lemma ItemsWellFormed(t: Trait)
    ensures |Items(t)| == if t == Altruism then 4 else 16
    ensures forall k :: 0 <= k < |Items(t)| ==> 1 <= Items(t)[k] <= ItemCount
    ensures Distinct(Items(t))
  {
    ItemsInRange(t);
    if t != Altruism {
      BroadItemsLayout(t);
      forall i, j | 0 <= i < j < 16 ensures Items(t)[i] != Items(t)[j] {
        BroadItemInjective(FirstItem(t), i, j);
      }
    }
  }

  /** Every item on the list of a scale lies in q1 .. q100 and is assigned
      to that scale by the layout rule. */
  lemma ItemTrait(t: Trait, k: int)
    requires 0 <= k < |Items(t)|
    ensures 1 <= Items(t)[k] <= ItemCount && TraitOf(Items(t)[k]) == t
  {
    if t != Altruism {
      BroadItemsLayout(t);
      BroadItemResidue(FirstItem(t), k);
    }
  }

  /** Every item of the inventory is on the list of the scale the layout rule
      assigns it to. */
  lemma ItemsCover(q: int)
    requires 1 <= q <= ItemCount
    ensures q in Items(TraitOf(q))
  {
    var t := TraitOf(q);
    if t != Altruism {
      var first := FirstItem(t);
      BroadItemsLayout(t);
      BroadItemCovers(first, q);
      var m := (q - first) / 6;
      assert 0 <= 4 * (m % 4) + m / 4 < 16;
    }
  }

  /** The seven lists partition q1 .. q100: an item is on the list of exactly
      the scale that the layout rule assigns it to. */
  lemma ItemsPartition(q: int, t: Trait)
    requires 1 <= q <= ItemCount
    ensures q in Items(t) <==> t == TraitOf(q)
  {
    if q in Items(t) {
      var k :| 0 <= k < |Items(t)| && Items(t)[k] == q;
      ItemTrait(t, k);
    }
    ItemsCover(q);
  }

  /** The reverse-keyed items of a scale are distinct ... */
  lemma ReverseKeyedDistinct(t: Trait)
    ensures Distinct(ReverseKeyed(t))
  {
  }

  /** ... and are items of that scale. */
  lemma ReverseKeyedInScale(t: Trait)
    ensures forall k :: 0 <= k < |ReverseKeyed(t)| ==>
      1 <= ReverseKeyed(t)[k] <= ItemCount && TraitOf(ReverseKeyed(t)[k]) == t
  {
  }

  lemma {:induction false} AppendScale(prefix: seq<int>, t: Trait)
    requires Distinct(prefix)
    requires forall q :: q in prefix ==> 1 <= q <= ItemCount && TraitOf(q) != t
    ensures Distinct(prefix + ReverseKeyed(t))
  {
    ReverseKeyedDistinct(t);
    ReverseKeyedInScale(t);
    var s := prefix + ReverseKeyed(t);
    forall i, j | 0 <= i < j < |s| ensures s[i] != s[j] {
      if j < |prefix| {
        assert s[i] == prefix[i] && s[j] == prefix[j];
      } else if i < |prefix| {
        assert s[i] in prefix && s[j] in ReverseKeyed(t);
      } else {
        assert s[i] == ReverseKeyed(t)[i - |prefix|] && s[j] == ReverseKeyed(t)[j - |prefix|];
      }
    }
  }

  /** The reversal list names the reverse-keyed items scale by scale, in the
      column order: it is the seven per-scale runs joined. */
  lemma ReversalItemsByScale()
    ensures ReversalItems ==
      ReverseKeyed(HonestyHumility) + ReverseKeyed(Emotionality) + ReverseKeyed(Extraversion) +
      ReverseKeyed(Agreeableness) + ReverseKeyed(Conscientiousness) + ReverseKeyed(Openness) +
      ReverseKeyed(Altruism)
  {
  }

  /** The reversal list names 50 distinct items of the inventory, so every
      listed item is reversed exactly once, and each of them lies on the list
      of exactly one scale. */
  lemma ReversalItemsWellFormed()
    ensures |ReversalItems| == 50
    ensures forall q :: q in ReversalItems ==> 1 <= q <= ItemCount && q in Items(TraitOf(q))
    ensures Distinct(ReversalItems)
  {
    forall t: Trait, q | q in ReverseKeyed(t) ensures 1 <= q <= ItemCount && TraitOf(q) == t {
      ReverseKeyedInScale(t);
    }
    var p := ReverseKeyed(HonestyHumility);
    AppendScale(p, Emotionality);
    p := p + ReverseKeyed(Emotionality);
    AppendScale(p, Extraversion);
    p := p + ReverseKeyed(Extraversion);
    AppendScale(p, Agreeableness);
    p := p + ReverseKeyed(Agreeableness);
    AppendScale(p, Conscientiousness);
    p := p + ReverseKeyed(Conscientiousness);
    AppendScale(p, Openness);
    p := p + ReverseKeyed(Openness);
    AppendScale(p, Altruism);
    p := p + ReverseKeyed(Altruism);
    ReversalItemsByScale();
    assert p == ReversalItems;
    forall q | q in ReversalItems ensures q in Items(TraitOf(q)) {
      ItemsPartition(q, TraitOf(q));
    }
  }

  /** An item is reversed exactly when it is on the reverse-keyed list of its
      own scale. */
  lemma ReversalByScale(q: int)
    requires 1 <= q <= ItemCount
    ensures IsReversalItem(q) <==> q in ReverseKeyed(TraitOf(q))
  {
    ReversalItemsByScale();
    forall t: Trait | q in ReverseKeyed(t) ensures TraitOf(q) == t {
      ReverseKeyedInScale(t);
    }
  }
}
