/**
 * The message-handling logic of the chat assistant (`ChatService`): the canned reply used when
 * the language model cannot be reached, the flattening of stored history into model messages,
 * the assembly of the outgoing message list, and the rendering of matched products.
 */
module Chat {
  import opened Wrappers
  import opened Seqs

  // ----- Fallback replies -----

  const ProductTerms: seq<string> := ["product", "clothing", "fashion", "sản phẩm", "quần áo", "thời trang"]
  const OrderTerms: seq<string> := ["order", "delivery", "đơn hàng", "giao hàng"]
  const SizeTerms: seq<string> := ["size", "fit", "return", "exchange", "kích thước", "đổi trả"]

  const CatalogueReply: string :=
    "We have a wide variety of fashion products including clothing, accessories, shoes, and bags. You can browse our [latest collections](/collections) on our website. Try asking me about specific items like \"show me dresses\" or \"I need a jacket\" and I'll provide direct links to products that match your needs!"
  const OrderReply: string :=
    "For order and delivery information, you can check in your [account](/account) or [contact our customer support team](/contact) for detailed assistance."
  const SizeReply: string :=
    "For size guides, fitting advice, or information about returns and exchanges, please check our [size chart](/size-guide) or [contact our support team](/contact). We want to ensure you get the perfect fit!"
  const GeneralReply: string :=
    "Thank you for contacting Sugar Paws! I will try my best to support you. Could you describe your issue in more detail? You can also browse our [products](/collections) or [contact us](/contact) for assistance."

  /** The message contains at least one of the terms. */
  predicate MentionsAny(lowerMessage: string, terms: seq<string>) {
    exists i :: 0 <= i < |terms| && Includes(lowerMessage, terms[i])
  }

  /** What a message is about: the branch of the fallback chain that answers it. */
  datatype Topic = Catalogue | Orders | Sizing | General

  /** The three `includes` chains of `getFallbackResponse`, tried in order. */
  function TopicOf(m: string): Topic {
    if Includes(m, "product") || Includes(m, "clothing") || Includes(m, "fashion") ||
       Includes(m, "sản phẩm") || Includes(m, "quần áo") || Includes(m, "thời trang")
    then Catalogue
    else if Includes(m, "order") || Includes(m, "delivery") || Includes(m, "đơn hàng") ||
            Includes(m, "giao hàng")
    then Orders
    else if Includes(m, "size") || Includes(m, "fit") || Includes(m, "return") ||
            Includes(m, "exchange") || Includes(m, "kích thước") || Includes(m, "đổi trả")
    then Sizing
    else General
  }

  /** The reply each branch returns. */
  function ReplyFor(topic: Topic): string {
    match topic
    case Catalogue => CatalogueReply
    case Orders => OrderReply
    case Sizing => SizeReply
    case General => GeneralReply
  }

  /**
   * `getFallbackResponse`: the reply of the first branch that matches the lower-cased message.
   * `lower` stands for `String.prototype.toLowerCase`.
   */
  function FallbackResponse(message: string, lower: string -> string): string {
    ReplyFor(TopicOf(lower(message)))
  }

  /** Each chain of `includes` tests for one group of terms. */
  lemma {:induction false} ChainsTestGroups(m: string)
    ensures (TopicOf(m) == Catalogue) == MentionsAny(m, ProductTerms)
    ensures TopicOf(m) != Catalogue ==> ((TopicOf(m) == Orders) == MentionsAny(m, OrderTerms))
    ensures TopicOf(m) != Catalogue && TopicOf(m) != Orders ==>
              ((TopicOf(m) == Sizing) == MentionsAny(m, SizeTerms))
  {
    if MentionsAny(m, ProductTerms) {
      var i :| 0 <= i < |ProductTerms| && Includes(m, ProductTerms[i]);
    }
    if MentionsAny(m, OrderTerms) {
      var i :| 0 <= i < |OrderTerms| && Includes(m, OrderTerms[i]);
    }
    if MentionsAny(m, SizeTerms) {
      var i :| 0 <= i < |SizeTerms| && Includes(m, SizeTerms[i]);
    }
    if TopicOf(m) == Catalogue {
      if Includes(m, "product") { assert Includes(m, ProductTerms[0]); }
      else if Includes(m, "clothing") { assert Includes(m, ProductTerms[1]); }
      else if Includes(m, "fashion") { assert Includes(m, ProductTerms[2]); }
      else if Includes(m, "sản phẩm") { assert Includes(m, ProductTerms[3]); }
      else if Includes(m, "quần áo") { assert Includes(m, ProductTerms[4]); }
      else { assert Includes(m, ProductTerms[5]); }
    } else if TopicOf(m) == Orders {
      if Includes(m, "order") { assert Includes(m, OrderTerms[0]); }
      else if Includes(m, "delivery") { assert Includes(m, OrderTerms[1]); }
      else if Includes(m, "đơn hàng") { assert Includes(m, OrderTerms[2]); }
      else { assert Includes(m, OrderTerms[3]); }
    } else if TopicOf(m) == Sizing {
      if Includes(m, "size") { assert Includes(m, SizeTerms[0]); }
      else if Includes(m, "fit") { assert Includes(m, SizeTerms[1]); }
      else if Includes(m, "return") { assert Includes(m, SizeTerms[2]); }
      else if Includes(m, "exchange") { assert Includes(m, SizeTerms[3]); }
      else if Includes(m, "kích thước") { assert Includes(m, SizeTerms[4]); }
      else { assert Includes(m, SizeTerms[5]); }
    }
  }

  /** Different branches give different replies, and none is empty. */
  lemma RepliesDistinct(a: Topic, b: Topic)
    ensures ReplyFor(a) == ReplyFor(b) ==> a == b
    ensures |ReplyFor(a)| > 0
  {
    assert |CatalogueReply| != |OrderReply| && |CatalogueReply| != |SizeReply|;
    assert |CatalogueReply| != |GeneralReply| && |OrderReply| != |SizeReply|;
    assert |OrderReply| != |GeneralReply| && |SizeReply| != |GeneralReply|;
  }

  /**
   * The reply identifies the first group mentioned: a product term wins over everything, an
   * order term over size terms, and with no term at all the generic reply is given.
   */
  lemma FallbackRouting(message: string, lower: string -> string)
    ensures var m, r := lower(message), FallbackResponse(message, lower);
      && (r == CatalogueReply <==> MentionsAny(m, ProductTerms))
      && (r == OrderReply <==> !MentionsAny(m, ProductTerms) && MentionsAny(m, OrderTerms))
      && (r == SizeReply <==>
            !MentionsAny(m, ProductTerms) && !MentionsAny(m, OrderTerms) && MentionsAny(m, SizeTerms))
      && (r == GeneralReply <==>
            !MentionsAny(m, ProductTerms) && !MentionsAny(m, OrderTerms) && !MentionsAny(m, SizeTerms))
  {
    var t := TopicOf(lower(message));
    ChainsTestGroups(lower(message));
    RepliesDistinct(t, Catalogue);
    RepliesDistinct(t, Orders);
    RepliesDistinct(t, Sizing);
    RepliesDistinct(t, General);
  }

  // ----- Conversation history -----

  /** A stored exchange: what the user wrote and what was answered. */
  datatype ChatRecord = ChatRecord(message: string, response: string)

  datatype Role = System | User | Assistant

  datatype ChatMessage = ChatMessage(role: Role, content: string)

  /** The two model messages of one stored exchange: the user's, then the assistant's. */
  function Turn(record: ChatRecord, half: int): ChatMessage {
    if half == 0 then ChatMessage(User, record.message) else ChatMessage(Assistant, record.response)
  }

  /** `take: 5` over the user's records, newest first. */
  function RecentHistory(newestFirst: seq<ChatRecord>): (r: seq<ChatRecord>)
    ensures |r| == if |newestFirst| < 5 then |newestFirst| else 5
    ensures forall i :: 0 <= i < |r| ==> r[i] == newestFirst[i]
  {
    if |newestFirst| < 5 then newestFirst else newestFirst[..5]
  }

  /**
   * `recentHistory.reverse().map(...).flat()`: k records, newest first, become 2k messages,
   * oldest exchange first, each as the user's message followed by the answer.
   */
  function ConversationHistory(newestFirst: seq<ChatRecord>): (r: seq<ChatMessage>)
    ensures |r| == 2 * |newestFirst|
    ensures forall i :: 0 <= i < |r| ==> r[i] == Turn(newestFirst[|newestFirst| - 1 - i / 2], i % 2)
  {
    if newestFirst == [] then []
    else
      var rest := ConversationHistory(newestFirst[1..]);
      var r := rest + [Turn(newestFirst[0], 0), Turn(newestFirst[0], 1)];
      assert forall i :: 0 <= i < |rest| ==> newestFirst[1..][|newestFirst[1..]| - 1 - i / 2] ==
                                             newestFirst[|newestFirst| - 1 - i / 2];
      r
  }

  /** The outgoing list: the system prompt, the history, and the current message last. */
  function Messages(systemPrompt: string, history: seq<ChatMessage>, message: string): (r: seq<ChatMessage>)
    ensures |r| == |history| + 2
    ensures r[0] == ChatMessage(System, systemPrompt) && r[|r| - 1] == ChatMessage(User, message)
    ensures r[1..|r| - 1] == history
  {
    [ChatMessage(System, systemPrompt)] + history + [ChatMessage(User, message)]
  }

  /** The flattened history alternates user and assistant, starting with the user. */
  lemma HistoryAlternates(newestFirst: seq<ChatRecord>)
    ensures forall i :: 0 <= i < |ConversationHistory(newestFirst)| ==>
              ConversationHistory(newestFirst)[i].role == if i % 2 == 0 then User else Assistant
  {
    var h := ConversationHistory(newestFirst);
    forall i | 0 <= i < |h|
      ensures h[i].role == if i % 2 == 0 then User else Assistant
    {
      assert h[i] == Turn(newestFirst[|newestFirst| - 1 - i / 2], i % 2);
    }
  }

  /**
   * What is sent to the model: an even number of 2 to 12 messages, the system prompt first,
   * then user and assistant strictly alternating, ending with the user's current message.
   */
  lemma OutgoingShape(systemPrompt: string, newestFirst: seq<ChatRecord>, message: string)
    ensures var r := Messages(systemPrompt, ConversationHistory(RecentHistory(newestFirst)), message);
      && |r| % 2 == 0 && 2 <= |r| <= 12
      && r[0].role == System
      && (forall i :: 1 <= i < |r| ==> r[i].role == if i % 2 == 1 then User else Assistant)
      && r[|r| - 1] == ChatMessage(User, message)
  {
    var recent := RecentHistory(newestFirst);
    var h := ConversationHistory(recent);
    HistoryAlternates(recent);
    MessagesAlternate(systemPrompt, h, message);
    var r := Messages(systemPrompt, h, message);
    assert |h| == 2 * |recent| && |recent| <= 5;
    assert |r| == 2 * |recent| + 2;
  }

  /** An alternating history of even length, framed by the prompt and the message, still alternates. */
  lemma MessagesAlternate(systemPrompt: string, h: seq<ChatMessage>, message: string)
    requires |h| % 2 == 0
    requires forall i :: 0 <= i < |h| ==> h[i].role == if i % 2 == 0 then User else Assistant
    ensures var r := Messages(systemPrompt, h, message);
            forall i :: 1 <= i < |r| ==> r[i].role == if i % 2 == 1 then User else Assistant
  {
    var r := Messages(systemPrompt, h, message);
    forall i | 1 <= i < |r|
      ensures r[i].role == if i % 2 == 1 then User else Assistant
    {
      if i < |r| - 1 {
        assert r[i] == r[1..|r| - 1][i - 1] == h[i - 1];
        assert (i - 1) % 2 == 0 <==> i % 2 == 1;
      }
    }
  }

  // ----- The reply that is saved -----

  /** The outcome of the completion call. */
  datatype Completion = Failed | Answered(content: Option<string>)

  /**
   * `botResponse`: the model's text unless it is missing or empty, in which case an apology;
   * when the call fails, the fallback reply for the user's message.
   */
  function BotResponse(message: string, lower: string -> string, completion: Completion): (r: string)
    ensures completion.Failed? ==> r == FallbackResponse(message, lower)
    ensures completion.Answered? && completion.content.Some? && completion.content.value != "" ==>
              r == completion.content.value
    ensures completion.Answered? && (completion.content.None? || completion.content.value == "") ==>
              r == "Sorry, I cannot answer this question at the moment."
    ensures |r| > 0
  {
    match completion
    case Failed =>
      RepliesDistinct(TopicOf(lower(message)), General);
      FallbackResponse(message, lower)
    case Answered(content) =>
      if content.Some? && content.value != "" then content.value
      else "Sorry, I cannot answer this question at the moment."
  }

  // ----- Product context -----

  /** A matched product as the search returns it: its variants' prices in table order. */
  datatype ProductSummary = ProductSummary(
    id: int, name: string, description: string, categoryNames: seq<string>, prices: seq<int>)

  /** `productDetails[0]?.price || 0`. */
  function FromPrice(p: ProductSummary): int {
    if p.prices == [] then 0 else p.prices[0]
  }

  /** The Markdown link a product line starts with. */
  function ProductLink(p: ProductSummary): string {
    "[" + p.name + "](/collections/" + IntToString(p.id) + ")"
  }

  /** What follows the link: description, categories when there are any, and the price. */
  function Details(p: ProductSummary): string {
    var names := Join(p.categoryNames, ", ");
    ": " + p.description + (if names != "" then " | Categories: " + names else "") +
    " | Price from: " + IntToString(FromPrice(p)) + "đ"
  }

  function ProductLine(p: ProductSummary): string {
    "- " + ProductLink(p) + Details(p)
  }

  const ProductsHeader: string := "\nFound products matching your request:\n"

  /** `formatProductsForContext`: nothing for no products, else a header and one line each. */
  function FormatProductsForContext(products: seq<ProductSummary>): (r: string)
    ensures products == [] ==> r == ""
    ensures products != [] ==> StartsWith(r, ProductsHeader)
  {
    if products == [] then ""
    else ProductsHeader + Join(seq(|products|, i requires 0 <= i < |products| => ProductLine(products[i])), "\n")
  }

  /** Every matched product's link appears in the rendered context. */
  lemma FormatLinksEveryProduct(products: seq<ProductSummary>, i: int)
    requires 0 <= i < |products|
    ensures Includes(FormatProductsForContext(products), ProductLink(products[i]))
  {
    var lines := seq(|products|, j requires 0 <= j < |products| => ProductLine(products[j]));
    var line := lines[i];
    var link := ProductLink(products[i]);
    IncludesMiddle("- ", link, Details(products[i]));
    JoinIncludesPart(lines, "\n", i);
    var body := Join(lines, "\n");
    var r := FormatProductsForContext(products);
    assert r == ProductsHeader + body + "";
    IncludesMiddle(ProductsHeader, body, "");
    IncludesTransitive(r, body, line);
    IncludesTransitive(r, line, link);
  }
}
