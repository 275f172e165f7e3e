/** Measurement-kit objects and their `operator<`, the key order of `Dict`. Objects are
    immutable values nested to any depth; Double stands for the C++ double without NaN. */
module Objects {

  datatype Entry = Entry(key: Object, value: Object)

  /** A Dict holds its entries in iteration order, as std::map does. */
  datatype Object =
    | None
    | Dict(entries: seq<Entry>)
    | Double(x: real)
    | Int(n: int)
    | List(items: seq<Object>)
    | Str(text: string)

  /** The numeric value of ObjectType. */
  function TypeRank(a: Object): nat {
    match a
    case None => 0
    case Dict(_) => 1
    case Double(_) => 2
    case Int(_) => 3
    case List(_) => 4
    case Str(_) => 5
  }

  /** The number of objects inside an object: what every recursion below decreases. */
  function Size(a: Object): (n: nat)
    ensures n > 0
  {
    match a
    case Dict(entries) => 1 + EntriesSize(entries)
    case List(items) => 1 + ItemsSize(items)
    case _ => 1
  }

  function ItemsSize(xs: seq<Object>): nat {
    if xs == [] then 0 else Size(xs[0]) + ItemsSize(xs[1..])
  }

  function EntriesSize(es: seq<Entry>): nat {
    if es == [] then 0 else EntrySize(es[0]) + EntriesSize(es[1..])
  }

  function EntrySize(e: Entry): nat {
    Size(e.key) + Size(e.value)
  }

  /** Object::operator<, including its answer for two None objects. */
  predicate Less(a: Object, b: Object)
    decreases Size(a) + Size(b), 0
  {
    if TypeRank(a) != TypeRank(b) then TypeRank(a) < TypeRank(b)
    else match (a, b)
      case (None, _) => true
      case (Dict(es), Dict(fs)) => DictLess(es, fs)
      case (Double(x), Double(y)) => x < y
      case (Int(x), Int(y)) => x < y
      case (List(xs), List(ys)) => ListLess(xs, ys)
      case (Str(s), Str(t)) => TextLess(s, t)
  }

  /** std::list comparison: lexicographic, asking `<` in both directions at each position. */
  predicate ListLess(xs: seq<Object>, ys: seq<Object>)
    decreases ItemsSize(xs) + ItemsSize(ys), 1
  {
    if xs == [] || ys == [] then ys != []
    else if Less(xs[0], ys[0]) then true
    else if Less(ys[0], xs[0]) then false
    else ListLess(xs[1..], ys[1..])
  }

  /** std::pair comparison, key first. */
  predicate PairLess(e: Entry, f: Entry)
    decreases EntrySize(e) + EntrySize(f), 1
  {
    Less(e.key, f.key) || (!Less(f.key, e.key) && Less(e.value, f.value))
  }

  /** std::map comparison: lexicographic over the pairs. */
  predicate DictLess(es: seq<Entry>, fs: seq<Entry>)
    decreases EntriesSize(es) + EntriesSize(fs), 2
  {
    if es == [] || fs == [] then fs != []
    else if PairLess(es[0], fs[0]) then true
    else if PairLess(fs[0], es[0]) then false
    else DictLess(es[1..], fs[1..])
  }

  /** std::string comparison. */
  predicate TextLess(s: string, t: string) {
    if s == "" || t == "" then t != ""
    else if s[0] != t[0] then s[0] < t[0]
    else TextLess(s[1..], t[1..])
  }

  /** No None occurs at any depth. */
  predicate NoneFree(a: Object) {
    match a
    case None => false
    case Dict(es) => forall i | 0 <= i < |es| :: NoneFree(es[i].key) && NoneFree(es[i].value)
    case List(xs) => forall i | 0 <= i < |xs| :: NoneFree(xs[i])
    case _ => true
  }

  /** The keys and values of a dictionary in one list. */
  function Flat(es: seq<Entry>): (xs: seq<Object>)
    ensures |xs| == 2 * |es|
    ensures forall i | 0 <= i < |es| :: xs[2 * i] == es[i].key && xs[2 * i + 1] == es[i].value
    ensures ItemsSize(xs) == EntriesSize(es)
  {
    if es == [] then []
    else
      var more := Flat(es[1..]);
      var xs := [es[0].key, es[0].value] + more;
      assert xs[1..] == [es[0].value] + more && xs[1..][1..] == more;
      xs
  }

  /** Comparing pairs comes to comparing the keys and values in turn, so every law about
      lists holds of dictionaries. */
  lemma {:induction false} DictLessIsListLess(es: seq<Entry>, fs: seq<Entry>)
    ensures DictLess(es, fs) == ListLess(Flat(es), Flat(fs))
  {
    if es != [] && fs != [] {
      var xs, ys := Flat(es), Flat(fs);
      assert xs[1..][1..] == Flat(es[1..]) && ys[1..][1..] == Flat(fs[1..]);
      DictLessIsListLess(es[1..], fs[1..]);
    }
  }

  predicate AllNoneFree(xs: seq<Object>) {
    forall i | 0 <= i < |xs| :: NoneFree(xs[i])
  }

  lemma FlatFaithful(es: seq<Entry>, fs: seq<Entry>)
    ensures Flat(es) == Flat(fs) <==> es == fs
    ensures AllNoneFree(Flat(es)) <==> NoneFree(Dict(es))
  {
    hide NoneFree, AllNoneFree;
    FlatInjective(es, fs);
    FlatNoneFree(es);
  }

  lemma FlatInjective(es: seq<Entry>, fs: seq<Entry>)
    ensures Flat(es) == Flat(fs) ==> es == fs
  {
    var xs, ys := Flat(es), Flat(fs);
    if xs == ys {
      assert |es| == |fs|;
      forall i | 0 <= i < |es| ensures es[i] == fs[i] {
        assert xs[2 * i] == ys[2 * i] && xs[2 * i + 1] == ys[2 * i + 1];
      }
    }
  }

  lemma FlatNoneFree(es: seq<Entry>)
    ensures AllNoneFree(Flat(es)) <==> NoneFree(Dict(es))
  {
    var xs := Flat(es);
    if AllNoneFree(xs) {
      forall i | 0 <= i < |es| ensures NoneFree(es[i].key) && NoneFree(es[i].value) {
        assert NoneFree(xs[2 * i]) && NoneFree(xs[2 * i + 1]);
      }
    }
    if NoneFree(Dict(es)) {
      forall k | 0 <= k < |xs| ensures NoneFree(xs[k]) {
        assert k == 2 * (k / 2) || k == 2 * (k / 2) + 1;
        assert NoneFree(es[k / 2].key) && NoneFree(es[k / 2].value);
      }
    }
  }

  /** Neither of two objects comes before the other. */
  predicate Equivalent(a: Object, b: Object) {
    !Less(a, b) && !Less(b, a)
  }

  lemma {:induction false} TextTrichotomy(s: string, t: string)
    ensures !TextLess(s, t) && !TextLess(t, s) <==> s == t
  {
    if s != "" && t != "" {
      TextTrichotomy(s[1..], t[1..]);
      assert s == [s[0]] + s[1..] && t == [t[0]] + t[1..];
    }
  }

  lemma {:induction false} TextTransitive(s: string, t: string, u: string)
    requires TextLess(s, t) && TextLess(t, u)
    ensures TextLess(s, u)
  {
    if s != "" && s[0] == t[0] == u[0] {
      TextTransitive(s[1..], t[1..], u[1..]);
    }
  }

  /** Trichotomy for all objects, None or not: two objects are equivalent under the order
      exactly when they are structurally equal and no None is inside. */
  lemma {:induction false} Trichotomy(a: Object, b: Object)
    ensures Equivalent(a, b) <==> a == b && NoneFree(a)
    decreases Size(a) + Size(b), 0
  {
    match (a, b) {
      case (Dict(es), Dict(fs)) =>
        DictLessIsListLess(es, fs);
        DictLessIsListLess(fs, es);
        FlatFaithful(es, fs);
        ListTrichotomy(Flat(es), Flat(fs));
      case (List(xs), List(ys)) =>
        ListTrichotomy(xs, ys);
      case (Str(s), Str(t)) =>
        TextTrichotomy(s, t);
      case _ =>
    }
  }

  lemma {:induction false} ListTrichotomy(xs: seq<Object>, ys: seq<Object>)
    ensures !ListLess(xs, ys) && !ListLess(ys, xs) <==> xs == ys && AllNoneFree(xs)
    decreases ItemsSize(xs) + ItemsSize(ys), 1
  {
    if xs != [] && ys != [] {
      Trichotomy(xs[0], ys[0]);
      ListTrichotomy(xs[1..], ys[1..]);
      assert xs == [xs[0]] + xs[1..] && ys == [ys[0]] + ys[1..];
      assert AllNoneFree(xs) <==> NoneFree(xs[0]) && AllNoneFree(xs[1..]);
    }
  }

  /** Transitivity for all objects: a None does not break it. */
  lemma {:induction false} Transitive(a: Object, b: Object, c: Object)
    requires Less(a, b) && Less(b, c)
    ensures Less(a, c)
    decreases Size(a) + Size(b) + Size(c), 0
  {
    if TypeRank(a) == TypeRank(b) == TypeRank(c) {
      match (a, b, c) {
        case (Dict(es), Dict(fs), Dict(gs)) =>
          DictLessIsListLess(es, fs);
          DictLessIsListLess(fs, gs);
          DictLessIsListLess(es, gs);
          ListTransitive(Flat(es), Flat(fs), Flat(gs));
        case (List(xs), List(ys), List(zs)) =>
          ListTransitive(xs, ys, zs);
        case (Str(s), Str(t), Str(u)) =>
          TextTransitive(s, t, u);
        case _ =>
      }
    }
  }

  lemma {:induction false} ListTransitive(xs: seq<Object>, ys: seq<Object>, zs: seq<Object>)
    requires ListLess(xs, ys) && ListLess(ys, zs)
    ensures ListLess(xs, zs)
    decreases ItemsSize(xs) + ItemsSize(ys) + ItemsSize(zs), 1
  {
    if xs != [] {
      var x, y, z := xs[0], ys[0], zs[0];
      Trichotomy(x, y);
      Trichotomy(y, z);
      if Less(x, y) && Less(y, z) {
        Transitive(x, y, z);
      } else if Equivalent(x, y) && Equivalent(y, z) {
        ListTransitive(xs[1..], ys[1..], zs[1..]);
      }
    }
  }

  /** An object comes before itself exactly when a None occurs inside it. */
  lemma Reflexivity(a: Object)
    ensures Less(a, a) <==> !NoneFree(a)
  {
    Trichotomy(a, a);
  }

  /** What std::map requires of its key order, on the keys in use. */
  ghost predicate StrictTotalOrderOn(keys: iset<Object>) {
    && (forall a | a in keys :: !Less(a, a))
    && (forall a, b | a in keys && b in keys :: Less(a, b) ==> !Less(b, a))
    && (forall a, b | a in keys && b in keys :: a == b || Less(a, b) || Less(b, a))
    && (forall a, b, c | a in keys && b in keys && c in keys :: Less(a, b) && Less(b, c) ==> Less(a, c))
  }

  /** The order is fit for a set of keys exactly when no key holds a None. */
  lemma FitForKeysIffNoneFree(keys: iset<Object>)
    ensures StrictTotalOrderOn(keys) <==> forall a | a in keys :: NoneFree(a)
  {
    if forall a | a in keys :: NoneFree(a) {
      forall a | a in keys ensures !Less(a, a) {
        Reflexivity(a);
      }
      forall a, b | a in keys && b in keys ensures a == b || Less(a, b) || Less(b, a) {
        Trichotomy(a, b);
      }
      forall a, b, c | Less(a, b) && Less(b, c) ensures Less(a, c) {
        Transitive(a, b, c);
      }
      forall a, b | a in keys && b in keys && Less(a, b) ensures !Less(b, a) {
      }
    }
    if StrictTotalOrderOn(keys) {
      forall a | a in keys ensures NoneFree(a) {
        Reflexivity(a);
      }
    }
  }

  /** Entries as std::map keeps them: keys strictly ascending. */
  predicate Ascending(es: seq<Entry>) {
    forall i, j | 0 <= i < j < |es| :: Less(es[i].key, es[j].key)
  }

  /** A dictionary of None-free keys has one representation: entry lists in key order with
      the same entries are the same list. Structural equality of dictionaries, and so the
      trichotomy above, is equality of the maps they stand for. */
  lemma {:induction false} DictCanonical(es: seq<Entry>, fs: seq<Entry>)
    requires Ascending(es) && Ascending(fs)
    requires forall e | e in es :: NoneFree(e.key)
    requires forall e :: e in es <==> e in fs
    ensures es == fs
  {
    assert fs == [] || fs[0] in es;
    if es != [] {
      assert es[0] in es && es[0] in fs;
      assert fs[0] in fs && fs[0] in es;
      FirstIsLeast(es, fs[0]);
      FirstIsLeast(fs, es[0]);
      if es[0] != fs[0] {
        Transitive(es[0].key, fs[0].key, es[0].key);
        Reflexivity(es[0].key);
        assert false;
      }
      forall e ensures e in es[1..] <==> e in fs[1..] {
        NotRepeated(es, e);
        NotRepeated(fs, e);
      }
      DictCanonical(es[1..], fs[1..]);
      assert es == [es[0]] + es[1..] && fs == [fs[0]] + fs[1..];
    }
  }

  lemma FirstIsLeast(es: seq<Entry>, e: Entry)
    requires Ascending(es) && e in es
    ensures e == es[0] || Less(es[0].key, e.key)
  {
    var i :| 0 <= i < |es| && es[i] == e;
  }

  lemma NotRepeated(es: seq<Entry>, e: Entry)
    requires Ascending(es) && es != [] && NoneFree(es[0].key)
    ensures e in es[1..] <==> e in es && e != es[0]
  {
    assert es == [es[0]] + es[1..];
    if e in es[1..] {
      var i :| 0 <= i < |es[1..]| && es[1..][i] == e;
      assert Less(es[0].key, es[i + 1].key);
      Reflexivity(es[0].key);
    }
  }

  // ----- Lexicographic comparison -----

  /** Two lists agree up to position `k`, where the first is over or has the lesser item. */
  predicate DiffersAt(xs: seq<Object>, ys: seq<Object>, k: nat) {
    && k <= |xs| && k < |ys| && xs[..k] == ys[..k]
    && (k < |xs| ==> Less(xs[k], ys[k]))
  }

  /** Lists are compared as section 25.4.8 of ISO C++11 says: one comes before the other exactly
      when they first differ at a position where it is over or has the lesser item. A None
      counts as differing from itself, so before that position there is none. */
  lemma {:induction false} ListLexicographic(xs: seq<Object>, ys: seq<Object>)
    ensures ListLess(xs, ys) <==> exists k :: 0 <= k <= |xs| && AllNoneFree(xs[..k]) && DiffersAt(xs, ys, k)
    decreases |xs|
  {
    if xs == [] || ys == [] {
      assert ys != [] ==> AllNoneFree(xs[..0]) && DiffersAt(xs, ys, 0);
    } else {
      Trichotomy(xs[0], ys[0]);
      ListLexicographic(xs[1..], ys[1..]);
      if Less(xs[0], ys[0]) {
        assert AllNoneFree(xs[..0]) && DiffersAt(xs, ys, 0);
      } else if ListLess(xs, ys) {
        var k :| 0 <= k <= |xs[1..]| && AllNoneFree(xs[1..][..k]) && DiffersAt(xs[1..], ys[1..], k);
        DifferenceShifts(xs, ys, k);
      }
      forall k | 0 < k <= |xs| && AllNoneFree(xs[..k]) && DiffersAt(xs, ys, k) ensures ListLess(xs, ys) {
        assert xs[..k][0] == ys[..k][0] == xs[0];
        DifferenceShifts(xs, ys, k - 1);
      }
    }
  }

  lemma DifferenceShifts(xs: seq<Object>, ys: seq<Object>, k: nat)
    requires xs != [] && ys != [] && k < |xs| && xs[0] == ys[0]
    ensures DiffersAt(xs, ys, k + 1) <==> DiffersAt(xs[1..], ys[1..], k)
    ensures AllNoneFree(xs[..k + 1]) <==> NoneFree(xs[0]) && AllNoneFree(xs[1..][..k])
  {
    assert xs[..k + 1] == [xs[0]] + xs[1..][..k];
    if k < |ys| {
      assert ys[..k + 1] == [ys[0]] + ys[1..][..k];
    }
    if DiffersAt(xs, ys, k + 1) {
      assert xs[1..][..k] == xs[..k + 1][1..] && ys[1..][..k] == ys[..k + 1][1..];
    }
    if AllNoneFree(xs[..k + 1]) {
      assert NoneFree(xs[..k + 1][0]);
      assert forall i | 0 <= i < k :: xs[1..][..k][i] == xs[..k + 1][i + 1];
    }
  }

  /** Strings are compared by their first difference, too. */
  lemma {:induction false} TextLexicographic(s: string, t: string)
    ensures TextLess(s, t) <==>
            exists k :: 0 <= k <= |s| && k < |t| && s[..k] == t[..k] && (k < |s| ==> s[k] < t[k])
    decreases |s|
  {
    if s == "" || t == "" {
      assert t != "" ==> s[..0] == t[..0];
    } else {
      TextLexicographic(s[1..], t[1..]);
      if s[0] != t[0] {
        assert s[..0] == t[..0];
        forall k | 0 < k <= |s| && k < |t| ensures s[..k] != t[..k] {
          assert s[..k][0] != t[..k][0];
        }
      } else {
        forall k | 0 <= k < |s| && k < |t| - 1 ensures s[1..][..k] == t[1..][..k] <==> s[..k + 1] == t[..k + 1] {
          assert s[..k + 1] == [s[0]] + s[1..][..k] && t[..k + 1] == [t[0]] + t[1..][..k];
        }
        if TextLess(s, t) {
          var k :| 0 <= k <= |s[1..]| && k < |t[1..]| && s[1..][..k] == t[1..][..k] && (k < |s[1..]| ==> s[1..][k] < t[1..][k]);
          assert s[..k + 1] == t[..k + 1];
        }
        forall k | 0 < k <= |s| && k < |t| && s[..k] == t[..k] && (k < |s| ==> s[k] < t[k]) ensures TextLess(s, t) {
          assert s[1..][..k - 1] == t[1..][..k - 1];
        }
      }
    }
  }

  // ----- Numbers and types -----

  /** The lexicographic order of sequences of numbers. */
  predicate IntsLess(xs: seq<int>, ys: seq<int>) {
    ys != [] && (xs == [] || xs[0] < ys[0] || (xs[0] == ys[0] && IntsLess(xs[1..], ys[1..])))
  }

  predicate RealsLess(xs: seq<real>, ys: seq<real>) {
    ys != [] && (xs == [] || xs[0] < ys[0] || (xs[0] == ys[0] && RealsLess(xs[1..], ys[1..])))
  }

  function Ints(xs: seq<int>): (items: seq<Object>)
    ensures |items| == |xs|
  {
    seq(|xs|, i requires 0 <= i < |xs| => Int(xs[i]))
  }

  function Doubles(xs: seq<real>): (items: seq<Object>)
    ensures |items| == |xs|
  {
    seq(|xs|, i requires 0 <= i < |xs| => Double(xs[i]))
  }

  /** Lists of integers compare as their numbers do: so single integers do, too. */
  lemma {:induction false} IntListsCompareAsNumbers(xs: seq<int>, ys: seq<int>)
    ensures Less(List(Ints(xs)), List(Ints(ys))) <==> IntsLess(xs, ys)
  {
    assert Less(List(Ints(xs)), List(Ints(ys))) == ListLess(Ints(xs), Ints(ys));
    if xs != [] && ys != [] {
      assert Ints(xs)[1..] == Ints(xs[1..]) && Ints(ys)[1..] == Ints(ys[1..]);
      assert Less(Int(xs[0]), Int(ys[0])) == (xs[0] < ys[0]);
      assert Less(Int(ys[0]), Int(xs[0])) == (ys[0] < xs[0]);
      IntListsCompareAsNumbers(xs[1..], ys[1..]);
      assert Less(List(Ints(xs[1..])), List(Ints(ys[1..]))) == ListLess(Ints(xs[1..]), Ints(ys[1..]));
    }
  }

  lemma {:induction false} DoubleListsCompareAsNumbers(xs: seq<real>, ys: seq<real>)
    ensures Less(List(Doubles(xs)), List(Doubles(ys))) <==> RealsLess(xs, ys)
  {
    assert Less(List(Doubles(xs)), List(Doubles(ys))) == ListLess(Doubles(xs), Doubles(ys));
    if xs != [] && ys != [] {
      assert Doubles(xs)[1..] == Doubles(xs[1..]) && Doubles(ys)[1..] == Doubles(ys[1..]);
      assert Less(Double(xs[0]), Double(ys[0])) == (xs[0] < ys[0]);
      assert Less(Double(ys[0]), Double(xs[0])) == (ys[0] < xs[0]);
      DoubleListsCompareAsNumbers(xs[1..], ys[1..]);
      assert Less(List(Doubles(xs[1..])), List(Doubles(ys[1..]))) == ListLess(Doubles(xs[1..]), Doubles(ys[1..]));
    }
  }

  /** Dictionaries with integer keys iterate in the order of the numbers, and a dictionary comes
      first when its first differing key is the lesser one. */
  lemma KeysIterateUpwards(es: seq<Entry>, i: nat, j: nat, m: int, n: int)
    requires Ascending(es) && i < |es| && j < |es| && es[i].key == Int(m) && es[j].key == Int(n)
    ensures i < j <==> m < n
  {}

  /** Objects of different types compare by the position of the type: None, Dict, Double, Int,
      List, Str. */
  lemma TypesInOrder(es: seq<Entry>, x: real, n: int, xs: seq<Object>, s: string)
    ensures var all := [None, Dict(es), Double(x), Int(n), List(xs), Str(s)];
            forall i, j | 0 <= i < |all| && 0 <= j < |all| && i != j :: Less(all[i], all[j]) <==> i < j
  {
    var all := [None, Dict(es), Double(x), Int(n), List(xs), Str(s)];
    forall i | 0 <= i < |all| ensures TypeRank(all[i]) == i {
    }
    assert forall i, j | 0 <= i < |all| && 0 <= j < |all| && i != j :: TypeRank(all[i]) != TypeRank(all[j]);
  }
}
