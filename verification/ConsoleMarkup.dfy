/** The element stack of `ConsoleHTMLCollector` (scripts/console_localization_coverage.py): which
    element each piece of text is attributed to. */
module ConsoleMarkup {

  type Attributes = map<string, string>

  datatype Open = Open(tag: string, attrs: Attributes)
  datatype TextNode = TextNode(data: string, owner: Open)
  datatype Attribute = Attribute(name: string, value: string, owner: Open)

  datatype Token =
    | StartTag(tag: string, attrs: Attributes)
    | StartEndTag(tag: string, attrs: Attributes)
    | EndTag(tag: string)
    | Data(data: string)

  datatype State = State(stack: seq<Open>, texts: seq<TextNode>, attributes: seq<Attribute>)

  const VOID_TAGS := {"area", "base", "br", "col", "embed", "hr", "img", "input", "link", "meta", "param", "source",
                      "track", "wbr"}

  /** The attributes worth translating, in the order they are looked for. */
  const ATTRIBUTES := ["aria-label", "placeholder", "title"]

  function Found(names: seq<string>, tag: string, attrs: Attributes): seq<Attribute> {
    if names == [] then []
    else
      (if names[0] in attrs then [Attribute(names[0], attrs[names[0]], Open(tag, attrs))] else [])
      + Found(names[1..], tag, attrs)
  }

  /** The last open element with the tag, or -1. */
  function LastOpen(stack: seq<Open>, tag: string): (i: int)
    ensures -1 <= i < |stack|
    ensures i >= 0 ==> stack[i].tag == tag
    ensures forall j | i < j < |stack| :: stack[j].tag != tag
  {
    if stack == [] then -1
    else if stack[|stack| - 1].tag == tag then |stack| - 1
    else LastOpen(stack[..|stack| - 1], tag)
  }

  function Innermost(stack: seq<Open>): Open {
    if stack == [] then Open("", map[]) else stack[|stack| - 1]
  }

  function Handle(s: State, token: Token): State {
    match token
    case StartTag(tag, attrs) =>
      s.(attributes := s.attributes + Found(ATTRIBUTES, tag, attrs),
         stack := if tag in VOID_TAGS then s.stack else s.stack + [Open(tag, attrs)])
    case StartEndTag(tag, attrs) => s.(attributes := s.attributes + Found(ATTRIBUTES, tag, attrs))
    case EndTag(tag) => var i := LastOpen(s.stack, tag); if i < 0 then s else s.(stack := s.stack[..i])
    case Data(data) => s.(texts := s.texts + [TextNode(data, Innermost(s.stack))])
  }

  function FeedTo(handle: (State, Token) -> State, s: State, tokens: seq<Token>): State
    decreases |tokens|
  {
    if tokens == [] then s else FeedTo(handle, handle(s, tokens[0]), tokens[1..])
  }

  function Feed(s: State, tokens: seq<Token>): State {
    FeedTo(Handle, s, tokens)
  }

  // ---- documents ----------------------------------------------------------------------------

  datatype Node =
    | Text(data: string)
    | Void(tag: string, attrs: Attributes)
    | SelfClosing(tag: string, attrs: Attributes)
    | Element(tag: string, attrs: Attributes, children: seq<Node>)

  predicate WellFormed(n: Node) {
    match n
    case Text(_) => true
    case Void(tag, _) => tag in VOID_TAGS
    case SelfClosing(_, _) => true
    case Element(tag, _, children) => tag !in VOID_TAGS && forall c | c in children :: WellFormed(c)
  }

  function Tokens(n: Node): seq<Token> {
    match n
    case Text(data) => [Data(data)]
    case Void(tag, attrs) => [StartTag(tag, attrs)]
    case SelfClosing(tag, attrs) => [StartEndTag(tag, attrs)]
    case Element(tag, attrs, children) => [StartTag(tag, attrs)] + AllTokens(children) + [EndTag(tag)]
  }

  function AllTokens(ns: seq<Node>): seq<Token> {
    if ns == [] then [] else Tokens(ns[0]) + AllTokens(ns[1..])
  }

  /** The text of a document, each piece with the element that directly holds it. */
  function Texts(n: Node, owner: Open): seq<TextNode> {
    match n
    case Text(data) => [TextNode(data, owner)]
    case Void(_, _) => []
    case SelfClosing(_, _) => []
    case Element(tag, attrs, children) => AllTexts(children, Open(tag, attrs))
  }

  function AllTexts(ns: seq<Node>, owner: Open): seq<TextNode> {
    if ns == [] then [] else Texts(ns[0], owner) + AllTexts(ns[1..], owner)
  }

  /** The attributes of a document in reading order. */
  function Attributed(n: Node): seq<Attribute> {
    match n
    case Text(_) => []
    case Void(tag, attrs) => Found(ATTRIBUTES, tag, attrs)
    case SelfClosing(tag, attrs) => Found(ATTRIBUTES, tag, attrs)
    case Element(tag, attrs, children) => Found(ATTRIBUTES, tag, attrs) + AllAttributed(children)
  }

  function AllAttributed(ns: seq<Node>): seq<Attribute> {
    if ns == [] then [] else Attributed(ns[0]) + AllAttributed(ns[1..])
  }

  lemma {:induction false} FoundMember(names: seq<string>, tag: string, attrs: Attributes, a: Attribute)
    ensures a in Found(names, tag, attrs)
            <==> a.name in names && a.name in attrs && a.value == attrs[a.name] && a.owner == Open(tag, attrs)
  {
    if names == [] {
    } else {
      FoundMember(names[1..], tag, attrs, a);
      assert names == [names[0]] + names[1..];
    }
  }

  /** Of an element are recorded exactly its label, placeholder and title, each with its value. */
  lemma FoundExactly(tag: string, attrs: Attributes, a: Attribute)
    ensures a in Found(ATTRIBUTES, tag, attrs)
            <==> && a.name in {"aria-label", "placeholder", "title"} && a.name in attrs
                 && a.value == attrs[a.name] && a.owner == Open(tag, attrs)
  {
    FoundMember(ATTRIBUTES, tag, attrs, a);
  }

  // ---- what the collector makes of them -----------------------------------------------------

  lemma {:induction false} FeedTwice(handle: (State, Token) -> State, s: State, a: seq<Token>, b: seq<Token>)
    ensures FeedTo(handle, s, a + b) == FeedTo(handle, FeedTo(handle, s, a), b)
    decreases |a|
  {
    if a == [] {
      assert a + b == b;
    } else {
      FeedTwice(handle, handle(s, a[0]), a[1..], b);
      assert (a + b)[1..] == a[1..] + b && (a + b)[0] == a[0];
    }
  }

  /** What reading a part of a document adds; the stack is as before. */
  function Read(s: State, texts: seq<TextNode>, attributes: seq<Attribute>): State {
    s.(texts := s.texts + texts, attributes := s.attributes + attributes)
  }

  /** Feeding a well-formed node attributes each text to its innermost element and restores the stack. */
  lemma {:induction false} NodeRead(s: State, n: Node)
    requires WellFormed(n)
    ensures Feed(s, Tokens(n)) == Read(s, Texts(n, Innermost(s.stack)), Attributed(n))
    decreases n, 1
  {
    match n
    case Text(_) => FeedOne(s, Tokens(n)[0]);
    case Void(_, _) => FeedOne(s, Tokens(n)[0]);
    case SelfClosing(_, _) => FeedOne(s, Tokens(n)[0]);
    case Element(tag, attrs, children) => ElementRead(s, tag, attrs, children);
  }

  lemma FeedOne(s: State, token: Token)
    ensures Feed(s, [token]) == Handle(s, token)
  {
    assert [token][1..] == [];
    assert Feed(s, [token]) == FeedTo(Handle, Handle(s, token), []);
  }

  lemma {:induction false} ElementRead(s: State, tag: string, attrs: Attributes, children: seq<Node>)
    requires tag !in VOID_TAGS && forall c | c in children :: WellFormed(c)
    ensures Feed(s, [StartTag(tag, attrs)] + AllTokens(children) + [EndTag(tag)])
            == Read(s, AllTexts(children, Open(tag, attrs)), Found(ATTRIBUTES, tag, attrs) + AllAttributed(children))
    decreases children, 1
  {
    var within := Handle(s, StartTag(tag, attrs));
    FeedTwice(Handle, s, [StartTag(tag, attrs)] + AllTokens(children), [EndTag(tag)]);
    FeedTwice(Handle, s, [StartTag(tag, attrs)], AllTokens(children));
    FeedOne(s, StartTag(tag, attrs));
    AllRead(within, children);
    var inside := Feed(within, AllTokens(children));
    FeedOne(inside, EndTag(tag));
    CutBack(s.stack, Open(tag, attrs));
  }

  /** Cutting at the element just opened gives back the stack before it. */
  lemma CutBack(stack: seq<Open>, top: Open)
    ensures LastOpen(stack + [top], top.tag) == |stack| && (stack + [top])[..|stack|] == stack
  {
  }

  lemma ReadTwice(s: State, a: seq<TextNode>, b: seq<Attribute>, c: seq<TextNode>, d: seq<Attribute>)
    ensures Read(Read(s, a, b), c, d) == Read(s, a + c, b + d)
  {
  }

  lemma {:induction false} AllRead(s: State, ns: seq<Node>)
    requires forall n | n in ns :: WellFormed(n)
    ensures Feed(s, AllTokens(ns)) == Read(s, AllTexts(ns, Innermost(s.stack)), AllAttributed(ns))
    decreases ns, 0
  {
    if ns == [] {
    } else {
      var owner, first, rest := Innermost(s.stack), ns[0], ns[1..];
      assert forall n | n in rest :: n in ns;
      FeedTwice(Handle, s, Tokens(first), AllTokens(rest));
      NodeRead(s, first);
      var s1 := Read(s, Texts(first, owner), Attributed(first));
      AllRead(s1, rest);
      ReadTwice(s, Texts(first, owner), Attributed(first), AllTexts(rest, owner), AllAttributed(rest));
    }
  }

  // ---- arbitrary token streams --------------------------------------------------------------

  predicate NoVoidOpen(stack: seq<Open>) {
    forall i | 0 <= i < |stack| :: stack[i].tag !in VOID_TAGS
  }

  /** On any stream: no void element is ever open. */
  lemma {:induction false} NeverVoid(s: State, tokens: seq<Token>)
    requires NoVoidOpen(s.stack)
    ensures NoVoidOpen(Feed(s, tokens).stack)
    decreases |tokens|
  {
    if tokens == [] {
    } else {
      NeverVoid(Handle(s, tokens[0]), tokens[1..]);
    }
  }

  /** An end tag cuts the stack back to what was open before the innermost element of that name, and
      leaves it alone when there is none. */
  lemma EndTagCuts(s: State, tag: string)
    ensures var s' := Handle(s, EndTag(tag));
            && s'.stack <= s.stack && s'.texts == s.texts && s'.attributes == s.attributes
            && (s'.stack == s.stack <==> forall i | 0 <= i < |s.stack| :: s.stack[i].tag != tag)
            && (s'.stack != s.stack ==>
                  && s.stack[|s'.stack|].tag == tag
                  && forall i | |s'.stack| < i < |s.stack| :: s.stack[i].tag != tag)
  {
    var i := LastOpen(s.stack, tag);
    if i >= 0 { assert s.stack[..i] <= s.stack; }
  }

  /** Nothing recorded is ever lost or changed. */
  lemma {:induction false} RecordsGrow(s: State, tokens: seq<Token>)
    ensures s.texts <= Feed(s, tokens).texts && s.attributes <= Feed(s, tokens).attributes
    decreases |tokens|
  {
    if tokens == [] {
    } else {
      RecordsGrow(Handle(s, tokens[0]), tokens[1..]);
    }
  }

  // ---- the collector ------------------------------------------------------------------------

  /** Looking for one more attribute. */
  lemma FoundFrom(names: seq<string>, i: nat, tag: string, attrs: Attributes, sofar: seq<Attribute>)
    requires i < |names|
    ensures sofar + Found(names[i..], tag, attrs)
            == sofar + (if names[i] in attrs then [Attribute(names[i], attrs[names[i]], Open(tag, attrs))] else [])
               + Found(names[i + 1..], tag, attrs)
  {
    assert names[i..][0] == names[i] && names[i..][1..] == names[i + 1..];
  }

  class Collector {
    var stack: seq<Open>
    var texts: seq<TextNode>
    var attributes: seq<Attribute>

    constructor ()
      ensures Value() == State([], [], [])
    {
      stack, texts, attributes := [], [], [];
    }

    function Value(): State
      reads this
    {
      State(stack, texts, attributes)
    }

    method RecordStart(tag: string, attrs: Attributes, push: bool)
      modifies this
      ensures Value() == old(Value()).(attributes := old(attributes) + Found(ATTRIBUTES, tag, attrs),
                                       stack := if push then old(stack) + [Open(tag, attrs)] else old(stack))
    {
      for i := 0 to |ATTRIBUTES|
        invariant stack == old(stack) && texts == old(texts)
        invariant attributes + Found(ATTRIBUTES[i..], tag, attrs) == old(attributes) + Found(ATTRIBUTES, tag, attrs)
      {
        var name := ATTRIBUTES[i];
        FoundFrom(ATTRIBUTES, i, tag, attrs, attributes);
        if name in attrs { attributes := attributes + [Attribute(name, attrs[name], Open(tag, attrs))]; }
      }
      if push { stack := stack + [Open(tag, attrs)]; }
    }

    method HandleStartTag(tag: string, attrs: Attributes)
      modifies this
      ensures Value() == Handle(old(Value()), StartTag(tag, attrs))
    {
      RecordStart(tag, attrs, tag !in VOID_TAGS);
    }

    method HandleStartEndTag(tag: string, attrs: Attributes)
      modifies this
      ensures Value() == Handle(old(Value()), StartEndTag(tag, attrs))
    {
      RecordStart(tag, attrs, false);
    }

    method HandleEndTag(tag: string)
      modifies this
      ensures Value() == Handle(old(Value()), EndTag(tag))
    {
      for i := |stack| downto 0
        invariant Value() == old(Value())
        invariant forall j | i <= j < |stack| :: stack[j].tag != tag
      {
        if stack[i].tag == tag {
          assert LastOpen(stack, tag) == i;
          stack := stack[..i];
          return;
        }
      }
    }

    method HandleData(data: string)
      modifies this
      ensures Value() == Handle(old(Value()), Data(data))
    {
      var owner := if stack != [] then stack[|stack| - 1] else Open("", map[]);
      texts := texts + [TextNode(data, owner)];
    }

    /** Reading a whole document: every text with its innermost element, and an empty stack at the end. */
    method Collect(document: seq<Node>)
      requires forall n | n in document :: WellFormed(n)
      modifies this
      ensures stack == old(stack)
      ensures texts == old(texts) + AllTexts(document, Innermost(old(stack)))
      ensures attributes == old(attributes) + AllAttributed(document)
    {
      var tokens := AllTokens(document);
      for i := 0 to |tokens|
        invariant Feed(Value(), tokens[i..]) == Feed(old(Value()), tokens)
      {
        assert tokens[i..][0] == tokens[i] && tokens[i..][1..] == tokens[i + 1..];
        match tokens[i]
        case StartTag(tag, attrs) => HandleStartTag(tag, attrs);
        case StartEndTag(tag, attrs) => HandleStartEndTag(tag, attrs);
        case EndTag(tag) => HandleEndTag(tag);
        case Data(data) => HandleData(data);
      }
      AllRead(old(Value()), document);
    }
  }
}
