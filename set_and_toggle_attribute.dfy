/**
  The two-value attribute flip `setAndToggleAttribute(el, attr, attrVal_1, attrVal_2)`:
  for each element of the collection, in order, an attribute that holds exactly
  `attrVal_1` is set to `attrVal_2`, and any other state of it (absent, `attrVal_2`,
  or a third value) is set to `attrVal_1`.
 */
module SetAndToggle {
  import opened Dom

  /** The value one pass writes into an attribute whose current value is `cur`. */
  function FlipValue(cur: Option<string>, v1: string, v2: string): (r: string)
    ensures r == v1 || r == v2
    ensures v1 != v2 ==> (r == v2 <==> cur == Some(v1))
  {
    if cur == Some(v1) then v2 else v1
  }

  /** The value of an attribute after `n` passes of the flip over its element. */
  function FlippedTimes(cur: Option<string>, v1: string, v2: string, n: nat): (r: Option<string>)
    ensures n == 0 ==> r == cur
    ensures n >= 1 ==> r == Some(v1) || r == Some(v2)
  {
    if n == 0 then cur else Some(FlipValue(FlippedTimes(cur, v1, v2, n - 1), v1, v2))
  }

  /** `attrs` and `attrs'` agree on every attribute except `attr`. */
  ghost predicate SameExcept(attrs: map<string, string>, attrs': map<string, string>, attr: string)
  {
    forall k :: k != attr ==> (k in attrs <==> k in attrs') && (k in attrs ==> attrs[k] == attrs'[k])
  }

  /** No element occurs twice in the collection. */
  predicate Distinct(els: seq<Element>)
  {
    forall i, j :: 0 <= i < j < |els| ==> els[i] != els[j]
  }

  /** How often `e` occurs among the first `i` elements of `s`. */
  function CountPrefix(s: seq<Element>, i: nat, e: Element): (r: nat)
    requires i <= |s|
    ensures r <= i
  {
    if i == 0 then 0 else CountPrefix(s, i - 1, e) + (if s[i - 1] == e then 1 else 0)
  }

  /**
    The `forEach` callback: read the attribute, then write the other value of
    the pair. An invalid attribute name makes the write throw, and nothing changes.
   */
  method ToggleOne(word: Element, attr: string, v1: string, v2: string) returns (status: Status)
    modifies word`attrs
    ensures status == Done <==> ValidAttrName(attr)
    ensures status == Done ==> word.attrs == old(word.attrs)[attr := FlipValue(Get(old(word.attrs), attr), v1, v2)]
    ensures status == InvalidCharacterError ==> word.attrs == old(word.attrs)
  {
    var cur := word.GetAttribute(attr);
    if cur == Some(v1) {
      status := word.SetAttribute(attr, v2);
    } else {
      status := word.SetAttribute(attr, v1);
    }
  }

  /**
    The flip over a whole collection, element by element in order. An element
    that occurs k times in `els` is flipped k times; in a collection without
    repeats every element is flipped exactly once. Only the attribute `attr`
    of the given elements is written; an empty collection writes nothing.
    With an invalid attribute name the first write throws, the exception
    leaves the loop, and no element has changed.
   */
  method SetAndToggleAttribute(els: seq<Element>, attr: string, v1: string, v2: string) returns (status: Status)
    modifies els`attrs
    ensures status == Done <==> ValidAttrName(attr) || |els| == 0
    ensures status == InvalidCharacterError ==> forall e :: e in els ==> e.attrs == old(e.attrs)
    ensures status == Done ==> forall e :: e in els ==> Get(e.attrs, attr) == FlippedTimes(Get(old(e.attrs), attr), v1, v2, multiset(els)[e])
    ensures status == Done ==> forall e :: e in els ==> SameExcept(old(e.attrs), e.attrs, attr)
    ensures status == Done ==> forall e :: e in els ==> attr in e.attrs && (e.attrs[attr] == v1 || e.attrs[attr] == v2)
    ensures status == Done && Distinct(els) ==> forall e :: e in els ==> e.attrs == old(e.attrs)[attr := FlipValue(Get(old(e.attrs), attr), v1, v2)]
  {
    var i := 0;
    while i < |els|
      invariant 0 <= i <= |els|
      invariant i > 0 ==> ValidAttrName(attr)
      invariant forall e :: e in els ==> Get(e.attrs, attr) == FlippedTimes(Get(old(e.attrs), attr), v1, v2, CountPrefix(els, i, e))
      invariant forall e :: e in els ==> SameExcept(old(e.attrs), e.attrs, attr)
    {
      label Top:
      var word := els[i];
      ghost var before := word.attrs;
      status := ToggleOne(word, attr, v1, v2);
      if status == InvalidCharacterError {
        forall e | e in els
          ensures e.attrs == old(e.attrs)
        {
          SameExceptSameValue(old(e.attrs), e.attrs, attr);
        }
        return;
      }
      SameExceptStep(old(word.attrs), before, attr, FlipValue(Get(before, attr), v1, v2));
      forall e | e in els
        ensures Get(e.attrs, attr) == FlippedTimes(Get(old(e.attrs), attr), v1, v2, CountPrefix(els, i + 1, e))
      {
        if e == word {
          assert CountPrefix(els, i + 1, e) == CountPrefix(els, i, e) + 1;
        } else {
          assert CountPrefix(els, i + 1, e) == CountPrefix(els, i, e);
          assert e.attrs == old@Top(e.attrs);
        }
      }
      i := i + 1;
    }
    status := Done;
    CountIsMultiplicity(els);
    forall e | e in els && Distinct(els)
      ensures e.attrs == old(e.attrs)[attr := FlipValue(Get(old(e.attrs), attr), v1, v2)]
    {
      SameExceptIsUpdate(old(e.attrs), e.attrs, attr, FlipValue(Get(old(e.attrs), attr), v1, v2));
    }
  }

  /** Writing `attr` keeps every other attribute as it was. */
  lemma SameExceptStep(attrs: map<string, string>, attrs': map<string, string>, attr: string, v: string)
    requires SameExcept(attrs, attrs', attr)
    ensures SameExcept(attrs, attrs'[attr := v], attr)
  {
  }

  /** Counting along a prefix agrees with the multiplicity in the prefix's multiset. */
  lemma {:induction false} CountPrefixIsMultiplicity(s: seq<Element>, i: nat, e: Element)
    requires i <= |s|
    ensures CountPrefix(s, i, e) == multiset(s[..i])[e]
  {
    if i > 0 {
      CountPrefixIsMultiplicity(s, i - 1, e);
      assert s[..i] == s[..i - 1] + [s[i - 1]];
    }
  }

  /** After the whole collection, the running count of every element is its multiplicity, which is one without repeats. */
  lemma CountIsMultiplicity(els: seq<Element>)
    ensures forall e :: e in els ==> CountPrefix(els, |els|, e) == multiset(els)[e]
    ensures Distinct(els) ==> forall e :: e in els ==> multiset(els)[e] == 1
  {
    assert els[..|els|] == els;
    forall e | e in els
      ensures CountPrefix(els, |els|, e) == multiset(els)[e]
      ensures Distinct(els) ==> multiset(els)[e] == 1
    {
      CountPrefixIsMultiplicity(els, |els|, e);
      if Distinct(els) {
        DistinctOccursOnce(els, e);
      }
    }
  }

  /** Every element of a collection without repeats occurs in it exactly once. */
  lemma {:induction false} DistinctOccursOnce(els: seq<Element>, e: Element)
    requires Distinct(els) && e in els
    ensures multiset(els)[e] == 1
  {
    var last := |els| - 1;
    assert els == els[..last] + [els[last]];
    if e == els[last] {
      assert e !in els[..last];
    } else {
      DistinctOccursOnce(els[..last], e);
    }
  }

  /** Two attribute maps that differ at most in `attr`, where the second holds `v`, are one update apart. */
  lemma SameExceptIsUpdate(attrs: map<string, string>, attrs': map<string, string>, attr: string, v: string)
    requires SameExcept(attrs, attrs', attr) && Get(attrs', attr) == Some(v)
    ensures attrs' == attrs[attr := v]
  {
  }

  /** Two attribute maps that differ at most in `attr` and agree on it are equal. */
  lemma SameExceptSameValue(attrs: map<string, string>, attrs': map<string, string>, attr: string)
    requires SameExcept(attrs, attrs', attr) && Get(attrs, attr) == Get(attrs', attr)
    ensures attrs' == attrs
  {
  }

  /**
    The values written by successive flips with two distinct values alternate:
    starting from `v1` they are v2, v1, v2, ...; starting anywhere else
    (absent, `v2` or a third value) they are v1, v2, v1, ...
   */
  lemma {:induction false} FlippedTimesAlternates(cur: Option<string>, v1: string, v2: string, n: nat)
    requires v1 != v2 && n >= 1
    ensures cur == Some(v1) ==> FlippedTimes(cur, v1, v2, n) == Some(if n % 2 == 1 then v2 else v1)
    ensures cur != Some(v1) ==> FlippedTimes(cur, v1, v2, n) == Some(if n % 2 == 1 then v1 else v2)
  {
    if n > 1 {
      FlippedTimesAlternates(cur, v1, v2, n - 1);
    }
  }

  /**
    With two distinct values and a value already one of them, the flip is an
    involution: every even number of passes restores the value.
   */
  lemma {:induction false} FlippedEvenTimesRestores(cur: Option<string>, v1: string, v2: string, k: nat)
    requires v1 != v2 && (cur == Some(v1) || cur == Some(v2))
    ensures FlippedTimes(cur, v1, v2, 2 * k) == cur
  {
    if k > 0 {
      FlippedEvenTimesRestores(cur, v1, v2, k - 1);
      assert FlippedTimes(cur, v1, v2, 2 * k) == Some(FlipValue(Some(FlipValue(FlippedTimes(cur, v1, v2, 2 * (k - 1)), v1, v2)), v1, v2));
    }
  }

  /** On one element whose value is already one of two distinct values, two passes restore its attributes. */
  lemma FlipTwiceRestores(attrs: map<string, string>, attr: string, v1: string, v2: string)
    requires v1 != v2 && (Get(attrs, attr) == Some(v1) || Get(attrs, attr) == Some(v2))
    ensures var once := attrs[attr := FlipValue(Get(attrs, attr), v1, v2)];
      once[attr := FlipValue(Get(once, attr), v1, v2)] == attrs
  {
  }

  /** After the first pass the value is one of the pair, so from then on the passes repeat with period two. */
  lemma FlippedTimesPeriodic(cur: Option<string>, v1: string, v2: string, n: nat)
    requires v1 != v2 && n >= 1
    ensures FlippedTimes(cur, v1, v2, n + 2) == FlippedTimes(cur, v1, v2, n)
  {
  }

  /** With both values equal, any positive number of passes leaves the attribute holding that value. */
  lemma FlippedTimesEqualValues(cur: Option<string>, v: string, n: nat)
    requires n >= 1
    ensures FlippedTimes(cur, v, v, n) == Some(v)
  {
  }

  /**
    An example scenario, checked by the verifier: flipping the empty attribute
    name throws on the first element and leaves every element as it was.
   */
  method EmptyNameThrows()
  {
    var first := new Element(map["style" := "display:none"], "cat");
    var second := new Element(map[], "dog");
    var status := SetAndToggleAttribute([first, second], "", "x", "y");
    assert status == InvalidCharacterError;
    assert first.attrs == map["style" := "display:none"] && second.attrs == map[];
  }
}
