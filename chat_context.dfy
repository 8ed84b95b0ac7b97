/**
 * Keyword extraction for the chat assistant (`ChatContextService.extractKeywords`): every term
 * of two fixed lists that occurs in the lower-cased message, fashion categories first, then
 * product types, with repeats in the lists kept.
 */
module ChatContext {
  import opened Seqs

  const FashionCategories: seq<string> :=
    ["shirt", "dress", "pants", "skirt", "jacket", "blouse",
     "áo", "váy", "quần", "đầm", "jacket", "áo khoác"]

  const ProductTypes: seq<string> :=
    ["clothing", "fashion", "accessories", "shoes", "bags", "jewelry",
     "quần áo", "thời trang", "phụ kiện", "giày", "túi xách", "trang sức"]

  /** Both lists in the order they are scanned. */
  function Terms(): seq<string> {
    FashionCategories + ProductTypes
  }

  /** The test `lowerMessage.includes(term)`. */
  function OccursIn(lowerMessage: string): string -> bool {
    term => Includes(lowerMessage, term)
  }

  /** The terms of `terms` that occur in the message, in list order, repeats kept. */
  function Contained(lowerMessage: string, terms: seq<string>): (r: seq<string>)
    ensures |r| <= |terms|
  {
    if terms == [] then []
    else (if Includes(lowerMessage, terms[0]) then [terms[0]] else []) + Contained(lowerMessage, terms[1..])
  }

  /** `Contained` is the filter by `OccursIn`. */
  lemma {:induction false} ContainedIsFilter(lowerMessage: string, terms: seq<string>)
    ensures Contained(lowerMessage, terms) == Filter(terms, OccursIn(lowerMessage))
  {
    if terms != [] {
      ContainedIsFilter(lowerMessage, terms[1..]);
    }
  }

  /** Scanning one more term appends it when the message contains it. */
  lemma {:induction false} ContainedAppend(lowerMessage: string, terms: seq<string>, term: string)
    ensures Contained(lowerMessage, terms + [term]) ==
            Contained(lowerMessage, terms) + (if Includes(lowerMessage, term) then [term] else [])
  {
    if terms == [] {
      assert [] + [term] == [term];
    } else {
      assert (terms + [term])[1..] == terms[1..] + [term];
      ContainedAppend(lowerMessage, terms[1..], term);
    }
  }

  /** The keywords of an already lower-cased message. */
  function Keywords(lowerMessage: string): (r: seq<string>)
    ensures |r| <= |Terms()| == 24
  {
    Contained(lowerMessage, FashionCategories) + Contained(lowerMessage, ProductTypes)
  }

  /** One `forEach`: push, in list order, each term the message contains. */
  method PushContained(lowerMessage: string, terms: seq<string>, keywords: seq<string>)
    returns (r: seq<string>)
    ensures r == keywords + Contained(lowerMessage, terms)
  {
    r := keywords;
    for i := 0 to |terms|
      invariant r == keywords + Contained(lowerMessage, terms[..i])
    {
      var term := terms[i];
      assert terms[..i + 1] == terms[..i] + [term];
      ContainedAppend(lowerMessage, terms[..i], term);
      if Includes(lowerMessage, term) {
        r := r + [term];
      }
    }
    assert terms[..|terms|] == terms;
  }

  /**
   * `extractKeywords`: the scan of the category list, then the scan of the product types.
   * `lower` stands for `String.prototype.toLowerCase`.
   */
  method ExtractKeywords(message: string, lower: string -> string) returns (keywords: seq<string>)
    ensures keywords == Keywords(lower(message))
  {
    var lowerMessage := lower(message);
    ghost var categories := Contained(lowerMessage, FashionCategories);
    ghost var types := Contained(lowerMessage, ProductTypes);
    keywords := PushContained(lowerMessage, FashionCategories, []);
    assert keywords == [] + categories == categories;
    keywords := PushContained(lowerMessage, ProductTypes, keywords);
    assert keywords == categories + types;
  }

  /** The two scans together are one filter over the concatenated lists, in list order. */
  lemma KeywordsInListOrder(lowerMessage: string)
    ensures Keywords(lowerMessage) == Contained(lowerMessage, Terms())
    ensures Keywords(lowerMessage) == Filter(Terms(), OccursIn(lowerMessage))
  {
    ContainedIsFilter(lowerMessage, FashionCategories);
    ContainedIsFilter(lowerMessage, ProductTypes);
    ContainedIsFilter(lowerMessage, Terms());
    FilterConcat(FashionCategories, ProductTypes, OccursIn(lowerMessage));
  }

  /** A term is a keyword exactly when it is listed and the message contains it. */
  lemma KeywordMembership(lowerMessage: string, term: string)
    ensures term in Keywords(lowerMessage) <==> term in Terms() && Includes(lowerMessage, term)
  {
    KeywordsInListOrder(lowerMessage);
    FilterMembers(Terms(), OccursIn(lowerMessage), term);
  }

  /** No listed term in the message, no keywords; and conversely. */
  lemma NoTermNoKeywords(lowerMessage: string)
    ensures Keywords(lowerMessage) == [] <==>
            forall i :: 0 <= i < |Terms()| ==> !Includes(lowerMessage, Terms()[i])
  {
    var r := Keywords(lowerMessage);
    if r != [] {
      KeywordMembership(lowerMessage, r[0]);
    }
    if exists i :: 0 <= i < |Terms()| && Includes(lowerMessage, Terms()[i]) {
      var i :| 0 <= i < |Terms()| && Includes(lowerMessage, Terms()[i]);
      KeywordMembership(lowerMessage, Terms()[i]);
    }
  }

  /** A term is kept once per listing when the message contains it, and never otherwise. */
  lemma ContainedCount(lowerMessage: string, terms: seq<string>, term: string)
    ensures multiset(Contained(lowerMessage, terms))[term] ==
            if Includes(lowerMessage, term) then multiset(terms)[term] else 0
  {
    ContainedIsFilter(lowerMessage, terms);
    FilterCount(terms, OccursIn(lowerMessage), term);
  }

  /** "jacket" is not a product type: no type has its length. */
  lemma JacketNotAType()
    ensures multiset(ProductTypes)["jacket"] == 0
  {
    assert forall i :: 0 <= i < |ProductTypes| ==> |ProductTypes[i]| != 6;
    assert "jacket" !in ProductTypes;
  }

  /** How many times `term` is listed in `terms`. */
  function Listings(terms: seq<string>, term: string): nat {
    if terms == [] then 0 else (if terms[0] == term then 1 else 0) + Listings(terms[1..], term)
  }

  /** The listing count is the multiplicity in the multiset of the list. */
  lemma {:induction false} ListingsCount(terms: seq<string>, term: string)
    ensures Listings(terms, term) == multiset(terms)[term]
  {
    if terms != [] {
      assert terms == [terms[0]] + terms[1..];
      ListingsCount(terms[1..], term);
    }
  }

  /** "jacket" is listed twice among the categories. */
  lemma JacketListedTwice()
    ensures Listings(FashionCategories, "jacket") == 2
  {
  }

  /** "jacket" is listed twice, so a message containing it yields it twice. */
  lemma JacketTwice(lowerMessage: string)
    ensures multiset(Keywords(lowerMessage))["jacket"] == if Includes(lowerMessage, "jacket") then 2 else 0
  {
    ContainedCount(lowerMessage, FashionCategories, "jacket");
    ContainedCount(lowerMessage, ProductTypes, "jacket");
    JacketListedTwice();
    ListingsCount(FashionCategories, "jacket");
    JacketNotAType();
    ghost var k := Keywords(lowerMessage);
    assert multiset(k) == multiset(Contained(lowerMessage, FashionCategories)) +
                          multiset(Contained(lowerMessage, ProductTypes));
  }

  /** Matching is on substrings: "quần áo" also yields "áo" and "quần". */
  lemma SubstringsAlsoMatch(lowerMessage: string)
    requires Includes(lowerMessage, "quần áo")
    ensures "áo" in Keywords(lowerMessage)
    ensures "quần" in Keywords(lowerMessage)
    ensures "quần áo" in Keywords(lowerMessage)
  {
    IncludesFromAt("quần áo", "áo", 5);
    IncludesFromAt("quần áo", "quần", 0);
    IncludesTransitive(lowerMessage, "quần áo", "áo");
    IncludesTransitive(lowerMessage, "quần áo", "quần");
    KeywordMembership(lowerMessage, "áo");
    KeywordMembership(lowerMessage, "quần");
    KeywordMembership(lowerMessage, "quần áo");
    assert Terms()[6] == "áo" && Terms()[8] == "quần" && Terms()[18] == "quần áo";
  }
}
