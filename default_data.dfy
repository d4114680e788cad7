/** The bundled starter sets and cards (src/flashcards/defaultData.ts). Everything here is a
    pure function of `seed`, the timestamp the source takes once, when the module is loaded.
    The SVG documents around the images are not modelled: an image is the `data:` URL prefix
    followed by the parameters the SVG is drawn from. The element each shape draws is. */
module DefaultData {
  import opened Types
  import opened Records
  import opened Text

  const DefaultSets: seq<FlashcardSet> := [
    FlashcardSet("numbers", "Numbers 0-10"),
    FlashcardSet("shapes", "Shapes"),
    FlashcardSet("colors", "Colors")
  ]

  const SvgDataUrlPrefix: string := "data:image/svg+xml,"

  /** `numbersToWords[n]`: the English word for 0..10; any other key is absent from the table. */
  const NumberWords: seq<string> :=
    ["Zero", "One", "Two", "Three", "Four", "Five", "Six", "Seven", "Eight", "Nine", "Ten"]

  function NumberNameInEnglish(n: int): (r: Option<string>)
    ensures r.Some? <==> 0 <= n <= 10
    ensures r.Some? ==> r.value in NumberWords
  {
    if 0 <= n < |NumberWords| then Some(NumberWords[n]) else None
  }

  /** `String(n)` for a natural number: its decimal digits, most significant first. */
  function DecimalString(n: nat): (s: string)
    ensures |s| >= 1
    ensures forall i :: 0 <= i < |s| ==> '0' <= s[i] <= '9'
    ensures n < 10 <==> |s| == 1
  {
    if n < 10 then [Digit(n)] else DecimalString(n / 10) + [Digit(n % 10)]
  }

  function Digit(d: nat): (c: char)
    requires d < 10
    ensures '0' <= c <= '9'
  {
    ('0' as int + d) as char
  }

  /** Different numbers print differently, so the ids `number-<n>` are pairwise distinct. */
  lemma {:induction false} DecimalStringInjective(a: nat, b: nat)
    requires DecimalString(a) == DecimalString(b)
    ensures a == b
  {
    var s := DecimalString(a);
    if a >= 10 {
      assert b >= 10;
      var pa, pb := DecimalString(a / 10), DecimalString(b / 10);
      assert s[..|s| - 1] == pa && s[..|s| - 1] == pb;
      assert Digit(a % 10) == s[|s| - 1] == Digit(b % 10);
      DecimalStringInjective(a / 10, b / 10);
    } else {
      assert b < 10;
      assert [Digit(a)][0] == [Digit(b)][0];
    }
  }

  /** `buildSvgCard(label, startColor, endColor)`, with the label as `text`. */
  function BuildSvgCard(text: string, startColor: string, endColor: string): (url: string)
    ensures |url| >= |SvgDataUrlPrefix| && url[..|SvgDataUrlPrefix|] == SvgDataUrlPrefix
  {
    SvgDataUrlPrefix + text + startColor + endColor
  }

  /** `buildIllustratedCard(content, height)`: a height of 0 falls back to 260. */
  function BuildIllustratedCard(content: string, height: nat): (url: string)
    ensures |url| >= |SvgDataUrlPrefix| && url[..|SvgDataUrlPrefix|] == SvgDataUrlPrefix
  {
    SvgDataUrlPrefix + DecimalString(if height != 0 then height else 260) + content
  }

  function BuildNumberCards(baseTimestamp: int): (cards: seq<Flashcard>)
    ensures |cards| == 11
  {
    seq(11, n requires 0 <= n < 11 =>
      Flashcard(
        "number-" + DecimalString(n),
        NumberNameInEnglish(n).value,
        BuildSvgCard(DecimalString(n), "#ffb347", "#7d7aff"),
        baseTimestamp + 200 + n,
        None,
        Some(["numbers"]),
        None))
  }

  /** One shape of the shape set; `height` is the optional drawing height. `element` is the
      start of the SVG element `build` draws, up to its `fill` attribute, and `roundJoin`
      says whether the element ends with `stroke-linejoin="round"`. */
  datatype ShapeConfig = ShapeConfig(id: string, name: string, height: Option<nat>,
                                     element: string, roundJoin: bool)

  const ShapeStroke: string := "#0f172a"

  const Palette: seq<string> := ["#f472b6", "#22d3ee", "#f97316", "#a78bfa", "#34d399",
                                  "#eab308", "#60a5fa", "#fb7185", "#4ade80", "#f59e0b"]

  const Shapes: seq<ShapeConfig> := [
    ShapeConfig("circle", "Circle", None, "<circle cx=\"200\" cy=\"130\" r=\"80\" ", false),
    ShapeConfig("square", "Square", None, "<rect x=\"120\" y=\"50\" width=\"160\" height=\"160\" rx=\"14\" ", false),
    ShapeConfig("triangle", "Triangle", None, "<polygon points=\"200,36 96,220 304,220\" ", true),
    ShapeConfig("rectangle", "Rectangle", None, "<rect x=\"80\" y=\"70\" width=\"240\" height=\"120\" rx=\"18\" ", false),
    ShapeConfig("star", "Star", Some(300),
      "<polygon points=\"200,32 236,122 332,126 254,186 282,278 200,226 118,278 146,186 68,126 164,122\" ", true),
    ShapeConfig("heart", "Heart", None,
      "<path d=\"M200 238c-72-40-116-96-116-148 0-38 28-66 66-66 26 0 48 14 50 40 2-26 24-40 50-40 38 0 66 28 66 66 0 52-44 108-116 148z\" ", true),
    ShapeConfig("oval", "Oval", None, "<ellipse cx=\"200\" cy=\"130\" rx=\"130\" ry=\"76\" ", false),
    ShapeConfig("diamond", "Diamond", None, "<polygon points=\"200,30 326,130 200,230 74,130\" ", true),
    ShapeConfig("pentagon", "Pentagon", Some(300), "<polygon points=\"200,28 332,126 284,248 116,248 68,126\" ", true),
    ShapeConfig("hexagon", "Hexagon", Some(300), "<polygon points=\"200,32 312,96 312,196 200,260 88,196 88,96\" ", true)
  ]

  /** `palette[index % palette.length]`: always an entry of the palette. */
  function PaletteColour(index: nat): (colour: string)
    ensures colour in Palette
  {
    Palette[index % |Palette|]
  }

  /** An SVG attribute, `name="value"`. */
  function Attribute(name: string, value: string): string {
    name + "=\"" + value + "\""
  }

  /** The attributes separated by single spaces. */
  function SpaceSeparated(attributes: seq<string>): string {
    if attributes == [] then ""
    else if |attributes| == 1 then attributes[0]
    else attributes[0] + " " + SpaceSeparated(attributes[1..])
  }

  /** A self-closing SVG element: `start`, then the attributes, then ` />`. */
  function SelfClosing(start: string, attributes: seq<string>): string {
    start + SpaceSeparated(attributes) + " />"
  }

  /** Each attribute of the list occurs in the list written out. */
  lemma {:induction false} SeparatedHas(attributes: seq<string>, k: nat)
    requires k < |attributes|
    ensures exists i :: 0 <= i <= |SpaceSeparated(attributes)| && OccursAt(attributes[k], SpaceSeparated(attributes), i)
  {
    var rest := attributes[1..];
    if |attributes| == 1 {
      OccursAtFront(attributes[0], "");
      assert attributes[0] + "" == attributes[0] == SpaceSeparated(attributes);
      assert OccursAt(attributes[k], SpaceSeparated(attributes), 0);
    } else if k == 0 {
      OccursAtFront(attributes[0], " " + SpaceSeparated(rest));
      assert SpaceSeparated(attributes) == attributes[0] + (" " + SpaceSeparated(rest));
    } else {
      SeparatedHas(rest, k - 1);
      var i :| 0 <= i <= |SpaceSeparated(rest)| && OccursAt(rest[k - 1], SpaceSeparated(rest), i);
      OccursAfter(attributes[0] + " ", rest[k - 1], SpaceSeparated(rest), i);
      assert OccursAt(attributes[k], SpaceSeparated(attributes), |attributes[0] + " "| + i);
    }
  }

  /** Each attribute of a self-closing element occurs in it. */
  lemma SelfClosingHas(start: string, attributes: seq<string>, k: nat)
    requires k < |attributes|
    ensures Occurs(attributes[k], SelfClosing(start, attributes))
  {
    var joined := SpaceSeparated(attributes);
    SeparatedHas(attributes, k);
    var i :| 0 <= i <= |joined| && OccursAt(attributes[k], joined, i);
    OccursAfter(start, attributes[k], joined, i);
    OccursBefore(attributes[k], start + joined, |start| + i, " />");
  }

  /** `shape.build(fill, stroke)`: the shape's element, filled with `fill`, outlined with
      `stroke` eight units wide, and closed. */
  function ShapeMarkup(shape: ShapeConfig, fill: string, stroke: string): (markup: string)
    ensures |markup| >= |shape.element| && markup[..|shape.element|] == shape.element
    ensures Occurs(Attribute("fill", fill), markup)
    ensures Occurs(Attribute("stroke", stroke), markup)
    ensures Occurs(Attribute("stroke-width", "8"), markup)
    ensures shape.roundJoin ==> Occurs(Attribute("stroke-linejoin", "round"), markup)
    ensures |markup| >= 3 && markup[|markup| - 3..] == " />"
  {
    var attributes := [Attribute("fill", fill), Attribute("stroke", stroke), Attribute("stroke-width", "8")]
      + (if shape.roundJoin then [Attribute("stroke-linejoin", "round")] else []);
    SelfClosingHas(shape.element, attributes, 0);
    SelfClosingHas(shape.element, attributes, 1);
    SelfClosingHas(shape.element, attributes, 2);
    var markup := SelfClosing(shape.element, attributes);
    if shape.roundJoin then
      SelfClosingHas(shape.element, attributes, 3);
      markup
    else
      markup
  }

  function BuildShapeCards(baseTimestamp: int): (cards: seq<Flashcard>)
    ensures |cards| == |Shapes|
  {
    seq(|Shapes|, i requires 0 <= i < |Shapes| =>
      Flashcard(
        "shape-" + Shapes[i].id,
        Shapes[i].name,
        BuildIllustratedCard(ShapeMarkup(Shapes[i], PaletteColour(i), ShapeStroke), Shapes[i].height.GetOr(0)),
        baseTimestamp + 400 + i,
        None,
        Some(["shapes"]),
        Some("#f8fafc")))
  }

  datatype ColorConfig = ColorConfig(id: string, name: string, hex: string)

  const Colors: seq<ColorConfig> := [
    ColorConfig("red", "Red", "#ef4444"),
    ColorConfig("blue", "Blue", "#3b82f6"),
    ColorConfig("yellow", "Yellow", "#facc15"),
    ColorConfig("green", "Green", "#22c55e"),
    ColorConfig("orange", "Orange", "#fb923c"),
    ColorConfig("purple", "Purple", "#a855f7"),
    ColorConfig("pink", "Pink", "#f472b6"),
    ColorConfig("brown", "Brown", "#b45309"),
    ColorConfig("black", "Black", "#111827"),
    ColorConfig("white", "White", "#f8fafc")
  ]

  function BuildColorCards(baseTimestamp: int): (cards: seq<Flashcard>)
    ensures |cards| == |Colors|
  {
    seq(|Colors|, i requires 0 <= i < |Colors| =>
      Flashcard(
        "color-" + Colors[i].id,
        Colors[i].name,
        "",
        baseTimestamp + 600 + i,
        None,
        Some(["colors"]),
        Some(Colors[i].hex)))
  }

  /** `defaultCards`, built from the load-time timestamp `seed`. */
  function DefaultCards(seed: int): (cards: seq<Flashcard>)
    ensures |cards| == 31
  {
    BuildNumberCards(seed) + BuildShapeCards(seed) + BuildColorCards(seed)
  }

  /** The default set ids are `numbers`, `shapes`, `colors`, in that order and pairwise distinct. */
  lemma DefaultSetIds()
    ensures SetIdList(DefaultSets) == ["numbers", "shapes", "colors"]
    ensures DistinctKeys(DefaultSets, SetKey)
  {
    assert SetIdList(DefaultSets)[0] == "numbers";
  }

  /** Where each builder's cards sit in `DefaultCards`: 11 number cards, then 10 shape cards,
      then 10 colour cards. */
  lemma DefaultCardsLayout(seed: int)
    ensures DefaultCards(seed)[..11] == BuildNumberCards(seed)
    ensures DefaultCards(seed)[11..21] == BuildShapeCards(seed)
    ensures DefaultCards(seed)[21..] == BuildColorCards(seed)
  {
    var n, s, c := BuildNumberCards(seed), BuildShapeCards(seed), BuildColorCards(seed);
    assert DefaultCards(seed) == n + s + c;
    assert (n + s + c)[11..21] == s;
  }

  /** Number card `n` is `number-<n>`, named by `numberNameInEnglish(n)`, which is defined for it. */
  lemma NumberCard(seed: int, n: nat)
    requires n <= 10
    ensures NumberNameInEnglish(n).Some?
    ensures DefaultCards(seed)[n].id == "number-" + DecimalString(n)
    ensures DefaultCards(seed)[n].name == NumberNameInEnglish(n).value
  {
    DefaultCardsLayout(seed);
    assert DefaultCards(seed)[n] == DefaultCards(seed)[..11][n];
  }

  /** Cutting a common prefix off two equal strings leaves equal strings. */
  lemma PrefixCancel(p: string, a: string, b: string)
    requires p + a == p + b
    ensures a == b
  {
    assert a == (p + a)[|p|..];
    assert b == (p + b)[|p|..];
  }

  lemma ShapeIdsDistinct()
    ensures forall i, j :: 0 <= i < j < |Shapes| ==> Shapes[i].id != Shapes[j].id
  {
  }

  lemma ColorIdsDistinct()
    ensures forall i, j :: 0 <= i < j < |Colors| ==> Colors[i].id != Colors[j].id
  {
  }

  lemma ShapeCardId(seed: int, i: nat)
    requires 11 <= i < 21
    ensures DefaultCards(seed)[i].id == "shape-" + Shapes[i - 11].id
  {
    DefaultCardsLayout(seed);
    assert DefaultCards(seed)[i] == DefaultCards(seed)[11..21][i - 11];
  }

  lemma ColorCardId(seed: int, i: nat)
    requires 21 <= i < 31
    ensures DefaultCards(seed)[i].id == "color-" + Colors[i - 21].id
  {
    DefaultCardsLayout(seed);
    assert DefaultCards(seed)[i] == DefaultCards(seed)[21..][i - 21];
  }

  /** The first character of every default card id tells its group apart. */
  lemma DefaultCardIdHeads(seed: int, i: nat)
    requires i < 31
    ensures i < 11 ==> DefaultCards(seed)[i].id == "number-" + DecimalString(i)
    ensures 11 <= i < 21 ==> DefaultCards(seed)[i].id == "shape-" + Shapes[i - 11].id
    ensures 21 <= i ==> DefaultCards(seed)[i].id == "color-" + Colors[i - 21].id
    ensures |DefaultCards(seed)[i].id| > 0
    ensures DefaultCards(seed)[i].id[0] == if i < 11 then 'n' else if i < 21 then 's' else 'c'
  {
    var id := DefaultCards(seed)[i].id;
    if i < 11 {
      NumberCard(seed, i);
      assert id == "number-" + DecimalString(i);
      assert id[0] == "number-"[0];
    } else if i < 21 {
      ShapeCardId(seed, i);
      assert id[0] == "shape-"[0];
    } else {
      ColorCardId(seed, i);
      assert id[0] == "color-"[0];
    }
  }

  /** No two default cards share an id. */
  lemma DefaultCardIdsDistinct(seed: int)
    ensures DistinctKeys(DefaultCards(seed), CardKey)
  {
    var cards := DefaultCards(seed);
    forall i, j | 0 <= i < j < |cards| ensures CardKey(cards[i]) != CardKey(cards[j]) {
      DefaultCardIdHeads(seed, i);
      DefaultCardIdHeads(seed, j);
      if cards[i].id == cards[j].id {
        if j < 11 {
          PrefixCancel("number-", DecimalString(i), DecimalString(j));
          DecimalStringInjective(i, j);
        } else if i >= 11 && j < 21 {
          PrefixCancel("shape-", Shapes[i - 11].id, Shapes[j - 11].id);
          ShapeIdsDistinct();
        } else if i >= 21 {
          PrefixCancel("color-", Colors[i - 21].id, Colors[j - 21].id);
          ColorIdsDistinct();
        }
      }
    }
  }

  /** The seed moves every `createdAt` by the same amount and changes nothing else; in
      particular the ids do not depend on it. */
  lemma DefaultCardsSeedIndependent(seed1: int, seed2: int)
    ensures forall i :: 0 <= i < 31 ==>
      DefaultCards(seed2)[i] == DefaultCards(seed1)[i].(createdAt := DefaultCards(seed1)[i].createdAt + seed2 - seed1)
    ensures forall i :: 0 <= i < 31 ==> DefaultCards(seed1)[i].id == DefaultCards(seed2)[i].id
  {
    DefaultCardsLayout(seed1);
    DefaultCardsLayout(seed2);
    forall i | 0 <= i < 31
      ensures DefaultCards(seed2)[i] == DefaultCards(seed1)[i].(createdAt := DefaultCards(seed1)[i].createdAt + seed2 - seed1)
    {
      if i < 11 {
        assert DefaultCards(seed1)[i] == DefaultCards(seed1)[..11][i];
        assert DefaultCards(seed2)[i] == DefaultCards(seed2)[..11][i];
      } else if i < 21 {
        assert DefaultCards(seed1)[i] == DefaultCards(seed1)[11..21][i - 11];
        assert DefaultCards(seed2)[i] == DefaultCards(seed2)[11..21][i - 11];
      } else {
        assert DefaultCards(seed1)[i] == DefaultCards(seed1)[21..][i - 21];
        assert DefaultCards(seed2)[i] == DefaultCards(seed2)[21..][i - 21];
      }
    }
  }

  /** Shape card `k`: in the shapes set, created `400 + k` after the seed, named after its
      shape, with a picture on a light background. */
  lemma ShapeCardAt(seed: int, k: nat)
    requires k < 10
    ensures BuildShapeCards(seed)[k].setIds == Some(["shapes"])
    ensures BuildShapeCards(seed)[k].createdAt == seed + 400 + k
    ensures BuildShapeCards(seed)[k].name == Shapes[k].name && BuildShapeCards(seed)[k].imageUrl != ""
    ensures BuildShapeCards(seed)[k].backgroundColor == Some("#f8fafc")
  {
  }

  /** Per card: its one set, its creation offset, and its face (image or colour). */
  lemma DefaultCardAt(seed: int, i: nat)
    requires i < 31
    ensures DefaultCards(seed)[i].setIds == Some([DefaultSets[if i < 11 then 0 else if i < 21 then 1 else 2].id])
    ensures DefaultCards(seed)[i].createdAt
              == seed + (if i < 11 then 200 + i else if i < 21 then 400 + (i - 11) else 600 + (i - 21))
    ensures i < 11 ==> DefaultCards(seed)[i].name in NumberWords && DefaultCards(seed)[i].imageUrl != ""
                       && DefaultCards(seed)[i].backgroundColor == None
    ensures 11 <= i < 21 ==> DefaultCards(seed)[i].name == Shapes[i - 11].name && DefaultCards(seed)[i].imageUrl != ""
                             && DefaultCards(seed)[i].backgroundColor == Some("#f8fafc")
    ensures 21 <= i ==> DefaultCards(seed)[i].name == Colors[i - 21].name && DefaultCards(seed)[i].imageUrl == ""
                        && DefaultCards(seed)[i].backgroundColor == Some(Colors[i - 21].hex)
  {
    DefaultCardsLayout(seed);
    if i < 11 {
      assert DefaultCards(seed)[i] == DefaultCards(seed)[..11][i];
    } else if i < 21 {
      ShapeCardAt(seed, i - 11);
      assert DefaultCards(seed)[i] == DefaultCards(seed)[11..21][i - 11];
    } else {
      assert DefaultCards(seed)[i] == DefaultCards(seed)[21..][i - 21];
    }
  }

  /** Every default card is in exactly one set, a default one, so none is uncategorized. */
  lemma DefaultCardsInOneDefaultSet(seed: int)
    ensures forall i :: 0 <= i < 31 ==>
      && DefaultCards(seed)[i].setIds.Some?
      && |DefaultCards(seed)[i].setIds.value| == 1
      && DefaultCards(seed)[i].setIds.value[0] in SetIdList(DefaultSets)
      && !IsUncategorized(DefaultCards(seed)[i])
  {
    DefaultSetIds();
    forall i | 0 <= i < 31 ensures DefaultCards(seed)[i].setIds.Some? && |DefaultCards(seed)[i].setIds.value| == 1
      && DefaultCards(seed)[i].setIds.value[0] in SetIdList(DefaultSets) {
      DefaultCardAt(seed, i);
    }
  }

  /** `createdAt` increases strictly along `DefaultCards`. */
  lemma DefaultCreatedAtIncreasing(seed: int)
    ensures forall i, j :: 0 <= i < j < 31 ==> DefaultCards(seed)[i].createdAt < DefaultCards(seed)[j].createdAt
  {
    forall i, j | 0 <= i < j < 31 ensures DefaultCards(seed)[i].createdAt < DefaultCards(seed)[j].createdAt {
      DefaultCardAt(seed, i);
      DefaultCardAt(seed, j);
    }
  }

  lemma NotBlankByHead(s: string)
    requires |s| > 0 && !IsWhitespace(s[0])
    ensures !IsBlank(s)
  {
  }

  lemma ConfigTextsStartVisibly()
    ensures forall k :: 0 <= k < |NumberWords| ==> |NumberWords[k]| > 0 && !IsWhitespace(NumberWords[k][0])
    ensures forall k :: 0 <= k < |Shapes| ==> |Shapes[k].name| > 0 && !IsWhitespace(Shapes[k].name[0])
    ensures forall k :: 0 <= k < |Colors| ==> |Colors[k].name| > 0 && !IsWhitespace(Colors[k].name[0])
    ensures forall k :: 0 <= k < |Colors| ==> |Colors[k].hex| > 0 && Colors[k].hex[0] == '#'
  {
  }

  /** Every default card has a name that is not blank, and an image or a colour that is not
      blank: the two things a card must have to be saved. */
  lemma DefaultCardsHaveNameAndFace(seed: int)
    ensures forall i :: 0 <= i < 31 ==> !IsBlank(DefaultCards(seed)[i].name)
    ensures forall i :: 0 <= i < 31 ==>
      DefaultCards(seed)[i].imageUrl != "" || !IsBlank(DefaultCards(seed)[i].backgroundColor.GetOr(""))
  {
    ConfigTextsStartVisibly();
    forall i | 0 <= i < 31 ensures !IsBlank(DefaultCards(seed)[i].name)
      && (DefaultCards(seed)[i].imageUrl != "" || !IsBlank(DefaultCards(seed)[i].backgroundColor.GetOr("")))
    {
      DefaultCardAt(seed, i);
      var c := DefaultCards(seed)[i];
      if i < 11 {
        var k :| 0 <= k < |NumberWords| && NumberWords[k] == c.name;
        NotBlankByHead(c.name);
      } else if i < 21 {
        NotBlankByHead(c.name);
      } else {
        NotBlankByHead(c.name);
        NotBlankByHead(c.backgroundColor.value);
      }
    }
  }
}
