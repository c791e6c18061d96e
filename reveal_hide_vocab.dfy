/**
  The reveal/hide button of the vocabulary page (`revealHideVocab`). Every
  click flips the button's label between "Reveal" and "Hide", flips the
  style of each obscured rendering of a word between `display:inline` and
  `display:none`, and flips each full rendering the opposite way.
 */
module RevealHideVocab {
  import opened Dom
  import opened SetAndToggle

  const Reveal: string := "Reveal"
  const Hide: string := "Hide"
  const StyleAttr: string := "style"
  const Inline: string := "display:inline"
  const NoDisplay: string := "display:none"

  /**
    The label text after one click: exactly "Reveal" becomes "Hide", any other
    text becomes "Reveal". It is the attribute flip's rule applied to the text
    with the pair ("Reveal", "Hide").
   */
  function ToggleLabel(text: string): (r: string)
    ensures r == Reveal || r == Hide
    ensures r == Hide <==> text == Reveal
    ensures r == FlipValue(Some(text), Reveal, Hide)
  {
    if text == Reveal then Hide else Reveal
  }

  /** The label text after `n` clicks. */
  function LabelAfter(text: string, n: nat): (r: string)
    ensures n == 0 ==> r == text
    ensures n >= 1 ==> r == Reveal || r == Hide
  {
    if n == 0 then text else ToggleLabel(LabelAfter(text, n - 1))
  }

  /** Counting clicks on the label is counting passes of the two-value flip over it. */
  lemma {:induction false} LabelAfterIsFlipped(text: string, n: nat)
    ensures Some(LabelAfter(text, n)) == FlippedTimes(Some(text), Reveal, Hide, n)
  {
    if n > 0 {
      LabelAfterIsFlipped(text, n - 1);
    }
  }

  /**
    Successive clicks alternate the label: from "Reveal" it reads Hide, Reveal,
    Hide, ...; from any other text it reads Reveal, Hide, Reveal, ...
   */
  lemma {:induction false} LabelAlternates(text: string, n: nat)
    requires n >= 1
    ensures LabelAfter(text, n) == Reveal || LabelAfter(text, n) == Hide
    ensures text == Reveal ==> LabelAfter(text, n) == (if n % 2 == 1 then Hide else Reveal)
    ensures text != Reveal ==> LabelAfter(text, n) == (if n % 2 == 1 then Reveal else Hide)
  {
    LabelAfterIsFlipped(text, n);
    FlippedTimesAlternates(Some(text), Reveal, Hide, n);
  }

  /**
    `styleWord`: the attribute flip with the attribute fixed to `style`. It is
    applied only to the page's node lists, which never repeat a node.
   */
  method StyleWord(words: seq<Element>, styleVal1: string, styleVal2: string)
    requires Distinct(words)
    modifies words`attrs
    ensures forall e :: e in words ==> e.attrs == old(e.attrs)[StyleAttr := FlipValue(Get(old(e.attrs), StyleAttr), styleVal1, styleVal2)]
  {
    StyleIsValidName();
    var status := SetAndToggleAttribute(words, StyleAttr, styleVal1, styleVal2);
  }

  /** The attribute `styleWord` writes is a valid name, so its `setAttribute` calls never throw. */
  lemma StyleIsValidName()
    ensures ValidAttrName(StyleAttr)
  {
    forall i | 0 <= i < |StyleAttr|
      ensures !ForbiddenInName(StyleAttr[i])
    {
      assert StyleAttr[i] in "style";
    }
  }

  /** Every element of `els` has its style attribute set to `style`. */
  ghost predicate AllStyled(els: seq<Element>, style: string)
    reads els
  {
    forall e :: e in els ==> Get(e.attrs, StyleAttr) == Some(style)
  }

  /**
    The page as the click handler sees it: the label element found by its id
    and the two collections of word renderings found by their class names.
   */
  class Page {
    const buttonText: Element
    const obscured: seq<Element>
    const full: seq<Element>

    constructor (buttonText: Element, obscured: seq<Element>, full: seq<Element>)
      ensures this.buttonText == buttonText && this.obscured == obscured && this.full == full
    {
      this.buttonText := buttonText;
      this.obscured := obscured;
      this.full := full;
    }

    /** Neither collection repeats an element and no element is in both. */
    predicate Disjoint()
    {
      Distinct(obscured) && Distinct(full) && forall e :: e in obscured ==> e !in full
    }

    /** The obscured renderings are shown and the full ones hidden. */
    ghost predicate ObscuredVisible()
      reads obscured, full
    {
      AllStyled(obscured, Inline) && AllStyled(full, NoDisplay)
    }

    /** The full renderings are shown and the obscured ones hidden. */
    ghost predicate FullVisible()
      reads obscured, full
    {
      AllStyled(obscured, NoDisplay) && AllStyled(full, Inline)
    }

    /**
      The click handler: the label text is toggled, every obscured rendering
      is flipped between `display:inline` and `display:none` and every full
      rendering the other way round, so the two visibility states swap. Only
      the label's text and the words' style attributes are written.
     */
    method Click()
      requires Disjoint()
      modifies buttonText`text, obscured`attrs, full`attrs
      ensures buttonText.text == ToggleLabel(old(buttonText.text))
      ensures forall e :: e in obscured ==> e.attrs == old(e.attrs)[StyleAttr := FlipValue(Get(old(e.attrs), StyleAttr), Inline, NoDisplay)]
      ensures forall e :: e in full ==> e.attrs == old(e.attrs)[StyleAttr := FlipValue(Get(old(e.attrs), StyleAttr), NoDisplay, Inline)]
      ensures old(ObscuredVisible()) ==> FullVisible()
      ensures old(FullVisible()) ==> ObscuredVisible()
    {
      buttonText.text := if buttonText.text == Reveal then Hide else Reveal;
      StyleWord(obscured, Inline, NoDisplay);
      label StyledObscured:
      StyleWord(full, NoDisplay, Inline);
      forall e | e in obscured
        ensures e.attrs == old(e.attrs)[StyleAttr := FlipValue(Get(old(e.attrs), StyleAttr), Inline, NoDisplay)]
      {
        assert e !in full;
        assert e.attrs == old@StyledObscured(e.attrs);
      }
    }
  }

  /**
    Two clicks restore the page: the label and every word's attributes are as
    before, provided the collections are disjoint, the label reads "Reveal" or
    "Hide", and every word's style is one of `display:inline` and `display:none`.
   */
  method ClickTwice(page: Page)
    requires page.Disjoint()
    requires page.buttonText.text == Reveal || page.buttonText.text == Hide
    requires forall e :: e in page.obscured || e in page.full ==>
      Get(e.attrs, StyleAttr) == Some(Inline) || Get(e.attrs, StyleAttr) == Some(NoDisplay)
    modifies page.buttonText`text, page.obscured`attrs, page.full`attrs
    ensures page.buttonText.text == old(page.buttonText.text)
    ensures forall e :: e in page.obscured || e in page.full ==> e.attrs == old(e.attrs)
  {
    page.Click();
    label Once:
    page.Click();
    forall e | e in page.obscured
      ensures e.attrs == old(e.attrs)
    {
      assert e.attrs == old@Once(e.attrs)[StyleAttr := FlipValue(Get(old@Once(e.attrs), StyleAttr), Inline, NoDisplay)];
      FlipTwiceRestores(old(e.attrs), StyleAttr, Inline, NoDisplay);
    }
    forall e | e in page.full
      ensures e.attrs == old(e.attrs)
    {
      assert e.attrs == old@Once(e.attrs)[StyleAttr := FlipValue(Get(old@Once(e.attrs), StyleAttr), NoDisplay, Inline)];
      FlipTwiceRestores(old(e.attrs), StyleAttr, NoDisplay, Inline);
    }
  }

  /**
    `n` clicks in a row: the label reads `LabelAfter` of its old text, every
    obscured word's style is its old style after `n` passes of the
    (`display:inline`, `display:none`) flip, every full word's the same with
    the pair reversed, and every other attribute is unchanged.
   */
  method ClickN(page: Page, n: nat)
    requires page.Disjoint()
    modifies page.buttonText`text, page.obscured`attrs, page.full`attrs
    ensures page.buttonText.text == LabelAfter(old(page.buttonText.text), n)
    ensures forall e :: e in page.obscured ==> Get(e.attrs, StyleAttr) == FlippedTimes(Get(old(e.attrs), StyleAttr), Inline, NoDisplay, n)
    ensures forall e :: e in page.full ==> Get(e.attrs, StyleAttr) == FlippedTimes(Get(old(e.attrs), StyleAttr), NoDisplay, Inline, n)
    ensures forall e :: e in page.obscured ==> SameExcept(old(e.attrs), e.attrs, StyleAttr)
    ensures forall e :: e in page.full ==> SameExcept(old(e.attrs), e.attrs, StyleAttr)
  {
    var k := 0;
    while k < n
      invariant 0 <= k <= n
      invariant page.buttonText.text == LabelAfter(old(page.buttonText.text), k)
      invariant forall e :: e in page.obscured ==> Get(e.attrs, StyleAttr) == FlippedTimes(Get(old(e.attrs), StyleAttr), Inline, NoDisplay, k)
      invariant forall e :: e in page.full ==> Get(e.attrs, StyleAttr) == FlippedTimes(Get(old(e.attrs), StyleAttr), NoDisplay, Inline, k)
      invariant forall e :: e in page.obscured ==> SameExcept(old(e.attrs), e.attrs, StyleAttr)
      invariant forall e :: e in page.full ==> SameExcept(old(e.attrs), e.attrs, StyleAttr)
    {
      label Before:
      page.Click();
      forall e | e in page.obscured
        ensures Get(e.attrs, StyleAttr) == FlippedTimes(Get(old(e.attrs), StyleAttr), Inline, NoDisplay, k + 1)
        ensures SameExcept(old(e.attrs), e.attrs, StyleAttr)
      {
        FlipStep(old(e.attrs), old@Before(e.attrs), e.attrs, Inline, NoDisplay, k);
      }
      forall e | e in page.full
        ensures Get(e.attrs, StyleAttr) == FlippedTimes(Get(old(e.attrs), StyleAttr), NoDisplay, Inline, k + 1)
        ensures SameExcept(old(e.attrs), e.attrs, StyleAttr)
      {
        FlipStep(old(e.attrs), old@Before(e.attrs), e.attrs, NoDisplay, Inline, k);
      }
      k := k + 1;
    }
  }

  /** One more click on a word that has had `k` flips of its style gives `k + 1` flips; other attributes stay. */
  lemma FlipStep(start: map<string, string>, before: map<string, string>, after: map<string, string>, v1: string, v2: string, k: nat)
    requires Get(before, StyleAttr) == FlippedTimes(Get(start, StyleAttr), v1, v2, k)
    requires SameExcept(start, before, StyleAttr)
    requires after == before[StyleAttr := FlipValue(Get(before, StyleAttr), v1, v2)]
    ensures Get(after, StyleAttr) == FlippedTimes(Get(start, StyleAttr), v1, v2, k + 1)
    ensures SameExcept(start, after, StyleAttr)
  {
    SameExceptStep(start, before, StyleAttr, FlipValue(Get(before, StyleAttr), v1, v2));
  }

  /**
    An example scenario, checked by the verifier: label "Reveal", one obscured
    word shown and its full rendering hidden; one click swaps all three, a
    second swaps them back.
   */
  method RevealThenHide()
  {
    var obscuredWord := new Element(map[StyleAttr := Inline], "c_t");
    var fullWord := new Element(map[StyleAttr := NoDisplay], "cat");
    var text := new Element(map[], Reveal);
    var page := new Page(text, [obscuredWord], [fullWord]);
    page.Click();
    assert text.text == Hide;
    assert obscuredWord.attrs[StyleAttr] == NoDisplay && fullWord.attrs[StyleAttr] == Inline;
    page.Click();
    assert text.text == Reveal;
    assert obscuredWord.attrs[StyleAttr] == Inline && fullWord.attrs[StyleAttr] == NoDisplay;
  }
}
