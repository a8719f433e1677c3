/**
 * The render pipeline of the saar framework (dom/tree.rs): declarative view
 * descriptions (`Html`), the append-only identity registry, resolution of a
 * description into a `Node` tree, and rendering of a node tree into markup.
 *
 * Components are a type parameter `C` and inline blocks a type parameter `B`.
 * What a component's `view`, a registry entry's `render`, a block's body and
 * `Attribute::render` compute is not part of this model: they are supplied
 * together as a `Host`, and every result below holds whatever they compute.
 */
module DomTree {

  // ------------------------------------------------------------ data model

  /** Handle into the registry: the position of the entry it names. */
  type Identity = nat

  /** An attribute: its name and the value its argument-less closure produces. */
  datatype Attribute = Attribute(name: string, value: string)

  /** What a view description instantiates: a component instance or an inline block. */
  datatype ComponentRef<C, B> = Component(component: C) | Block(block: B)

  /** A declarative view description: reference, attributes, and nested descriptions ("props"). */
  datatype Html<C, B> = Html(component: ComponentRef<C, B>, attributes: seq<Attribute>, props: seq<Html<C, B>>)

  /** A registry entry: a mounted component and the view it returned when it was registered. */
  datatype Entry<C, B> = Entry(component: C, view: Html<C, B>)

  /** The resolved reference of a node: a registered identity or the block itself. */
  datatype Inner<B> = Component(identity: Identity) | Block(block: B)

  /** A resolved node; its children stay nodes until render time. */
  datatype Node<B> = Node(inner: Inner<B>, attributes: seq<Attribute>, props: seq<Node<B>>)

  /** A resolved tree and the identity of the component that owns it. */
  datatype Tree<B> = Tree(node: Node<B>, identity: Identity)

  /** What a block and an extraction see while a tree renders. */
  datatype Context<C> = Context(component: C, props: seq<string>, attributes: seq<Attribute>)
  {
    /** Forwards a query to the component that owns this context. */
    function Extract<Q>(extract: (C, Q) -> string, query: Q): (answer: string)
      ensures answer == extract(component, query)
    {
      extract(component, query)
    }
  }

  /** The collaborators outside this model, each a total function. */
  datatype Host<!C, !B> = Host(
    view: C -> Html<C, B>,                                         // Component::view
    render: (Entry<C, B>, seq<string>, seq<Attribute>) -> string,   // rendering of a registry entry
    text: (B, Context<C>) -> string,                                // a block's body
    attribute: Attribute -> string                                  // Attribute::render
  )

  // ------------------------------------------------------------- registry

  /** The append-only registry behind `state::push` and `state::get`. */
  class Registry<C, B> {
    var entries: seq<Entry<C, B>>

    constructor ()
      ensures entries == []
    {
      entries := [];
    }

    /** Stores a component with its view snapshot; the fresh identity is the old length. */
    method Push(component: C, view: Html<C, B>) returns (identity: Identity)
      modifies this
      ensures identity == |old(entries)|
      ensures entries == old(entries) + [Entry(component, view)]
    {
      identity := |entries|;
      entries := entries + [Entry(component, view)];
    }
  }

  // ----------------------------------------------- resolution, as functions

  /** Inner::new on registry contents `reg`: the inner reference and the registry after it. */
  function ResolveInner<C, B>(host: Host<C, B>, reg: seq<Entry<C, B>>, component: ComponentRef<C, B>)
    : (res: (Inner<B>, seq<Entry<C, B>>))
    ensures reg <= res.1
    ensures res.0.Component? <==> component.Component?
    ensures component.Component? ==>
      |res.1| == |reg| + 1 && res.0.identity == |reg|
      && res.1[res.0.identity] == Entry(component.component, host.view(component.component))
    ensures component.Block? ==> res.1 == reg && res.0.block == component.block
  {
    match component
    case Component(c) => (Inner.Component(|reg|), reg + [Entry(c, host.view(c))])
    case Block(b) => (Inner.Block(b), reg)
  }

  /** Node::new: resolve every child in order, then the node's own reference. */
  function ResolveNode<C, B>(host: Host<C, B>, reg: seq<Entry<C, B>>, view: Html<C, B>, identity: Identity)
    : (res: (Node<B>, seq<Entry<C, B>>))
    ensures reg <= res.1
    ensures |res.0.props| == |view.props|
    decreases view, 1
  {
    var (props, reg1) := ResolveAll(host, reg, view.props, identity);
    var (inner, reg2) := ResolveInner(host, reg1, view.component);
    (Node(inner, view.attributes, props), reg2)
  }

  /** Resolves `views` left to right, each from the registry its predecessors left. */
  function ResolveAll<C, B>(host: Host<C, B>, reg: seq<Entry<C, B>>, views: seq<Html<C, B>>, identity: Identity)
    : (res: (seq<Node<B>>, seq<Entry<C, B>>))
    ensures reg <= res.1
    ensures |res.0| == |views|
    decreases views
  {
    if views == [] then ([], reg)
    else
      var (props, reg1) := ResolveAll(host, reg, views[..|views| - 1], identity);
      var (child, reg2) := ResolveNode(host, reg1, views[|views| - 1], identity);
      (props + [child], reg2)
  }

  /** Tree::new: the resolved node tree, tagged with its owner's identity. */
  function ResolveTree<C, B>(host: Host<C, B>, reg: seq<Entry<C, B>>, view: Html<C, B>, identity: Identity)
    : (res: (Tree<B>, seq<Entry<C, B>>))
    ensures res.0.identity == identity
    ensures res.1 == reg + Snapshots(host, Components(view))
    ensures NodeShape(res.0.node) == HtmlShape(view)
  {
    ResolveRegistry(host, reg, view, identity);
    ResolveShape(host, reg, view, identity);
    var (node, reg1) := ResolveNode(host, reg, view, identity);
    (Tree(node, identity), reg1)
  }

  // ---------------------------------------- resolution, on the registry object

  /** Inner::new: a component is registered with its own view snapshot; a block is kept as is. */
  method NewInner<C, B>(host: Host<C, B>, reg: Registry<C, B>, component: ComponentRef<C, B>) returns (inner: Inner<B>)
    modifies reg
    ensures (inner, reg.entries) == ResolveInner(host, old(reg.entries), component)
    ensures component.Component? ==>
      inner == Inner.Component(|old(reg.entries)|)
      && reg.entries == old(reg.entries) + [Entry(component.component, host.view(component.component))]
    ensures component.Block? ==> inner == Inner.Block(component.block) && reg.entries == old(reg.entries)
  {
    match component
    case Component(c) =>
      var view := host.view(c);
      var identity := reg.Push(c, view);
      inner := Inner.Component(identity);
    case Block(b) =>
      inner := Inner.Block(b);
  }

  /** Node::new: children first, in order, each with the same `identity`; then the node's reference. */
  method NewNode<C, B>(host: Host<C, B>, reg: Registry<C, B>, view: Html<C, B>, identity: Identity) returns (node: Node<B>)
    modifies reg
    ensures (node, reg.entries) == ResolveNode(host, old(reg.entries), view, identity)
    decreases view
  {
    var props: seq<Node<B>> := [];
    for i := 0 to |view.props|
      invariant (props, reg.entries) == ResolveAll(host, old(reg.entries), view.props[..i], identity)
    {
      assert view.props[..i + 1][..i] == view.props[..i];
      var child := NewNode(host, reg, view.props[i], identity);
      props := props + [child];
    }
    assert view.props[..|view.props|] == view.props;
    var inner := NewInner(host, reg, view.component);
    node := Node(inner, view.attributes, props);
  }

  /** Tree::new: registers exactly the components of `view`, in resolution order, and nothing else. */
  method NewTree<C, B>(host: Host<C, B>, reg: Registry<C, B>, view: Html<C, B>, identity: Identity) returns (tree: Tree<B>)
    modifies reg
    ensures (tree, reg.entries) == ResolveTree(host, old(reg.entries), view, identity)
    ensures tree.identity == identity
    ensures reg.entries == old(reg.entries) + Snapshots(host, Components(view))
    ensures Identities(tree.node) == Range(|old(reg.entries)|, |reg.entries|)
    ensures NodeShape(tree.node) == HtmlShape(view)
  {
    ResolveRegistry(host, reg.entries, view, identity);
    ResolveIdentities(host, reg.entries, view, identity);
    ResolveShape(host, reg.entries, view, identity);
    var node := NewNode(host, reg, view, identity);
    tree := Tree(node, identity);
  }

  // ------------------------------------------------------------ rendering

  /** Every identity in `node` names one of the first `count` registry entries. */
  predicate Registered<B>(node: Node<B>, count: nat)
    decreases node
  {
    && (node.inner.Component? ==> node.inner.identity < count)
    && forall i :: 0 <= i < |node.props| ==> Registered(node.props[i], count)
  }

  /** Node::render (through Inner::render). */
  function RenderNode<C, B>(host: Host<C, B>, reg: seq<Entry<C, B>>, node: Node<B>, context: Context<C>): (markup: string)
    requires Registered(node, |reg|)
    ensures node.inner.Block? ==> markup == host.text(node.inner.block, context)
    ensures node.inner.Component? ==>
      markup == host.render(reg[node.inner.identity], PropsNew(host, reg, node.props, context), node.attributes)
    decreases node, 1
  {
    match node.inner
    case Component(identity) => host.render(reg[identity], PropsNew(host, reg, node.props, context), node.attributes)
    case Block(b) => host.text(b, context)
  }

  /** Props::new: each child rendered with the same context, in order. */
  function PropsNew<C, B>(host: Host<C, B>, reg: seq<Entry<C, B>>, nodes: seq<Node<B>>, context: Context<C>)
    : (props: seq<string>)
    requires forall i :: 0 <= i < |nodes| ==> Registered(nodes[i], |reg|)
    ensures |props| == |nodes|
    ensures forall i :: 0 <= i < |nodes| ==> props[i] == RenderNode(host, reg, nodes[i], context)
    decreases nodes
  {
    if nodes == [] then [] else [RenderNode(host, reg, nodes[0], context)] + PropsNew(host, reg, nodes[1..], context)
  }

  /** Collecting strings into one (Props::render, and Attributes::render after the map). */
  function Concat(parts: seq<string>): (s: string)
    ensures parts == [] ==> s == ""
    ensures |parts| == 1 ==> s == parts[0]
  {
    if parts == [] then "" else parts[0] + Concat(parts[1..])
  }

  /** Attributes::render: each attribute rendered and collected, in order. */
  function AttributesRender(attribute: Attribute -> string, attributes: seq<Attribute>): (s: string)
    ensures attributes == [] ==> s == ""
    ensures |attributes| == 1 ==> s == attribute(attributes[0])
  {
    Concat(seq(|attributes|, i requires 0 <= i < |attributes| => attribute(attributes[i])))
  }

  /** The context Tree::render hands its node: the owner from the registry, and the given props and attributes. */
  function TreeContext<C, B>(reg: seq<Entry<C, B>>, tree: Tree<B>, props: seq<string>, attributes: seq<Attribute>)
    : (context: Context<C>)
    requires tree.identity < |reg|
    ensures context.component == reg[tree.identity].component
    ensures context.props == props && context.attributes == attributes
  {
    Context(reg[tree.identity].component, props, attributes)
  }

  /** Tree::render. */
  function TreeRender<C, B>(host: Host<C, B>, reg: seq<Entry<C, B>>, tree: Tree<B>, props: seq<string>, attributes: seq<Attribute>)
    : (markup: string)
    requires tree.identity < |reg| && Registered(tree.node, |reg|)
    ensures tree.node.inner.Block? ==>
      markup == host.text(tree.node.inner.block, Context(reg[tree.identity].component, props, attributes))
    ensures tree.node.inner.Component? ==>
      markup == host.render(reg[tree.node.inner.identity],
        PropsNew(host, reg, tree.node.props, Context(reg[tree.identity].component, props, attributes)), tree.node.attributes)
  {
    RenderNode(host, reg, tree.node, TreeContext(reg, tree, props, attributes))
  }

  // ------------------------------------- views of trees used to state results

  /** The components of a description, in the order resolution registers them (children before parent). */
  function Components<C, B>(view: Html<C, B>): seq<C>
    decreases view, 1
  {
    ComponentsOfAll(view.props) + (if view.component.Component? then [view.component.component] else [])
  }

  function ComponentsOfAll<C, B>(views: seq<Html<C, B>>): seq<C>
    decreases views
  {
    if views == [] then [] else ComponentsOfAll(views[..|views| - 1]) + Components(views[|views| - 1])
  }

  /** The entries registering `components` produces: each with its own view snapshot. */
  function Snapshots<C, B>(host: Host<C, B>, components: seq<C>): (entries: seq<Entry<C, B>>)
    ensures |entries| == |components|
    ensures forall i :: 0 <= i < |components| ==> entries[i] == Entry(components[i], host.view(components[i]))
  {
    seq(|components|, i requires 0 <= i < |components| => Entry(components[i], host.view(components[i])))
  }

  /** The identities of a node tree, in the same order as `Components`. */
  function Identities<B>(node: Node<B>): seq<Identity>
    decreases node, 1
  {
    IdentitiesOfAll(node.props) + (if node.inner.Component? then [node.inner.identity] else [])
  }

  function IdentitiesOfAll<B>(nodes: seq<Node<B>>): seq<Identity>
    decreases nodes
  {
    if nodes == [] then [] else IdentitiesOfAll(nodes[..|nodes| - 1]) + Identities(nodes[|nodes| - 1])
  }

  /** The consecutive identities `lo`, ..., `hi - 1`. */
  function Range(lo: nat, hi: nat): (r: seq<Identity>)
    requires lo <= hi
    ensures |r| == hi - lo
    ensures forall i :: 0 <= i < |r| ==> r[i] == lo + i
  {
    seq(hi - lo, i requires 0 <= i < hi - lo => lo + i)
  }

  /** A node's kind with the identity forgotten. */
  datatype Kind<B> = ComponentKind | BlockKind(block: B)

  /** The shape of a tree: kinds, attributes and children in order. */
  datatype Shape<B> = Shape(kind: Kind<B>, attributes: seq<Attribute>, children: seq<Shape<B>>)

  function HtmlShape<C, B>(view: Html<C, B>): Shape<B>
    decreases view
  {
    Shape(
      if view.component.Component? then ComponentKind else BlockKind(view.component.block),
      view.attributes,
      seq(|view.props|, i requires 0 <= i < |view.props| => HtmlShape(view.props[i])))
  }

  function NodeShape<B>(node: Node<B>): Shape<B>
    decreases node
  {
    Shape(
      if node.inner.Component? then ComponentKind else BlockKind(node.inner.block),
      node.attributes,
      seq(|node.props|, i requires 0 <= i < |node.props| => NodeShape(node.props[i])))
  }

  // ------------------------------------------------------ lemmas: resolution

  /** The registry after resolution is the old one followed by one snapshot per component, in order. */
  lemma {:induction false} ResolveRegistry<C, B>(host: Host<C, B>, reg: seq<Entry<C, B>>, view: Html<C, B>, identity: Identity)
    ensures ResolveNode(host, reg, view, identity).1 == reg + Snapshots(host, Components(view))
    decreases view, 1
  {
    var (props, reg1) := ResolveAll(host, reg, view.props, identity);
    ResolveAllRegistry(host, reg, view.props, identity);
    var own := if view.component.Component? then [view.component.component] else [];
    assert Snapshots(host, ComponentsOfAll(view.props) + own)
        == Snapshots(host, ComponentsOfAll(view.props)) + Snapshots(host, own);
  }

  lemma {:induction false} ResolveAllRegistry<C, B>(host: Host<C, B>, reg: seq<Entry<C, B>>, views: seq<Html<C, B>>, identity: Identity)
    ensures ResolveAll(host, reg, views, identity).1 == reg + Snapshots(host, ComponentsOfAll(views))
    decreases views
  {
    if views != [] {
      var init, last := views[..|views| - 1], views[|views| - 1];
      var (props, reg1) := ResolveAll(host, reg, init, identity);
      ResolveAllRegistry(host, reg, init, identity);
      ResolveRegistry(host, reg1, last, identity);
      assert Snapshots(host, ComponentsOfAll(init) + Components(last))
          == Snapshots(host, ComponentsOfAll(init)) + Snapshots(host, Components(last));
    }
  }

  /** Resolution hands out consecutive fresh identities, one per registered entry, in registration order. */
  lemma {:induction false} ResolveIdentities<C, B>(host: Host<C, B>, reg: seq<Entry<C, B>>, view: Html<C, B>, identity: Identity)
    ensures var res := ResolveNode(host, reg, view, identity); Identities(res.0) == Range(|reg|, |res.1|)
    decreases view, 1
  {
    var (props, reg1) := ResolveAll(host, reg, view.props, identity);
    ResolveAllIdentities(host, reg, view.props, identity);
    var res := ResolveNode(host, reg, view, identity);
    assert res.0.props == props;
    if view.component.Component? {
      assert Range(|reg|, |reg1|) + [|reg1|] == Range(|reg|, |res.1|);
    } else {
      assert Identities(res.0) == IdentitiesOfAll(props) + [];
    }
  }

  lemma {:induction false} ResolveAllIdentities<C, B>(host: Host<C, B>, reg: seq<Entry<C, B>>, views: seq<Html<C, B>>, identity: Identity)
    ensures var res := ResolveAll(host, reg, views, identity); IdentitiesOfAll(res.0) == Range(|reg|, |res.1|)
    decreases views
  {
    if views != [] {
      var init, last := views[..|views| - 1], views[|views| - 1];
      var (props, reg1) := ResolveAll(host, reg, init, identity);
      var (child, reg2) := ResolveNode(host, reg1, last, identity);
      ResolveAllIdentities(host, reg, init, identity);
      ResolveIdentities(host, reg1, last, identity);
      var nodes := props + [child];
      assert nodes[..|nodes| - 1] == props;
      assert Range(|reg|, |reg1|) + Range(|reg1|, |reg2|) == Range(|reg|, |reg2|);
    }
  }

  /** The identities resolution hands out are pairwise distinct, and the k-th one looks up the
      k-th component of the description together with that component's own view. */
  lemma {:induction false} ResolveLookup<C, B>(host: Host<C, B>, reg: seq<Entry<C, B>>, view: Html<C, B>, identity: Identity)
    ensures var res := ResolveNode(host, reg, view, identity);
      var ids, components := Identities(res.0), Components(view);
      && |ids| == |components|
      && (forall j, k :: 0 <= j < k < |ids| ==> ids[j] != ids[k])
      && forall k :: 0 <= k < |ids| ==>
           ids[k] < |res.1| && res.1[ids[k]] == Entry(components[k], host.view(components[k]))
  {
    var res := ResolveNode(host, reg, view, identity);
    var ids, components := Identities(res.0), Components(view);
    ResolveRegistry(host, reg, view, identity);
    ResolveIdentities(host, reg, view, identity);
    var added := Snapshots(host, components);
    assert res.1 == reg + added && ids == Range(|reg|, |res.1|);
    forall k | 0 <= k < |ids|
      ensures ids[k] < |res.1| && res.1[ids[k]] == Entry(components[k], host.view(components[k]))
    {
      assert ids[k] == |reg| + k;
      assert res.1[|reg| + k] == added[k];
    }
  }

  /** Resolution keeps the shape: kinds, blocks, attributes, and the number and order of children. */
  lemma {:induction false} ResolveShape<C, B>(host: Host<C, B>, reg: seq<Entry<C, B>>, view: Html<C, B>, identity: Identity)
    ensures NodeShape(ResolveNode(host, reg, view, identity).0) == HtmlShape(view)
    decreases view, 1
  {
    var node := ResolveNode(host, reg, view, identity).0;
    ResolveAllShape(host, reg, view.props, identity);
    assert node.props == ResolveAll(host, reg, view.props, identity).0;
    assert NodeShape(node).children == HtmlShape(view).children;
  }

  lemma {:induction false} ResolveAllShape<C, B>(host: Host<C, B>, reg: seq<Entry<C, B>>, views: seq<Html<C, B>>, identity: Identity)
    ensures var nodes := ResolveAll(host, reg, views, identity).0;
      forall i :: 0 <= i < |views| ==> NodeShape(nodes[i]) == HtmlShape(views[i])
    decreases views
  {
    if views != [] {
      var init, last := views[..|views| - 1], views[|views| - 1];
      var (props, reg1) := ResolveAll(host, reg, init, identity);
      ResolveAllShape(host, reg, init, identity);
      ResolveShape(host, reg1, last, identity);
    }
  }

  /** Child `k` is resolved, with the same `identity`, from the registry that children `0..k` left behind. */
  lemma {:induction false} ResolveAllInOrder<C, B>(host: Host<C, B>, reg: seq<Entry<C, B>>, views: seq<Html<C, B>>, identity: Identity, k: nat)
    requires k < |views|
    ensures ResolveAll(host, reg, views, identity).0[k]
         == ResolveNode(host, ResolveAll(host, reg, views[..k], identity).1, views[k], identity).0
    decreases views
  {
    var init := views[..|views| - 1];
    if k < |views| - 1 {
      ResolveAllInOrder(host, reg, init, identity, k);
      assert init[..k] == views[..k];
    }
  }

  /** Every identity in a resolved node names an entry of the registry resolution left behind. */
  lemma {:induction false} ResolveRegistered<C, B>(host: Host<C, B>, reg: seq<Entry<C, B>>, view: Html<C, B>, identity: Identity)
    ensures Registered(ResolveNode(host, reg, view, identity).0, |ResolveNode(host, reg, view, identity).1|)
    decreases view, 1
  {
    var children := ResolveAll(host, reg, view.props, identity);
    ResolveAllRegistered(host, reg, view.props, identity);
    var res := ResolveNode(host, reg, view, identity);
    assert res.0.props == children.0;
    forall i | 0 <= i < |children.0| ensures Registered(children.0[i], |res.1|) {
      RegisteredMonotone(children.0[i], |children.1|, |res.1|);
    }
  }

  lemma {:induction false} ResolveAllRegistered<C, B>(host: Host<C, B>, reg: seq<Entry<C, B>>, views: seq<Html<C, B>>, identity: Identity)
    ensures forall i :: 0 <= i < |views| ==>
      Registered(ResolveAll(host, reg, views, identity).0[i], |ResolveAll(host, reg, views, identity).1|)
    decreases views
  {
    if views != [] {
      var init, last := views[..|views| - 1], views[|views| - 1];
      var before := ResolveAll(host, reg, init, identity);
      var after := ResolveNode(host, before.1, last, identity);
      ResolveAllRegistered(host, reg, init, identity);
      ResolveRegistered(host, before.1, last, identity);
      forall i | 0 <= i < |before.0| ensures Registered(before.0[i], |after.1|) {
        RegisteredMonotone(before.0[i], |before.1|, |after.1|);
      }
    }
  }

  /** A node registered in a registry stays registered as the registry grows. */
  lemma {:induction false} RegisteredMonotone<B>(node: Node<B>, m: nat, n: nat)
    requires Registered(node, m) && m <= n
    ensures Registered(node, n)
    decreases node
  {
    forall i | 0 <= i < |node.props| ensures Registered(node.props[i], n) {
      RegisteredMonotone(node.props[i], m, n);
    }
  }

  /** A tree resolved for a registered owner can be rendered on the registry it left behind. */
  lemma ResolveTreeRenderable<C, B>(host: Host<C, B>, reg: seq<Entry<C, B>>, view: Html<C, B>, identity: Identity)
    requires identity < |reg|
    ensures var res := ResolveTree(host, reg, view, identity);
      res.0.identity < |res.1| && Registered(res.0.node, |res.1|)
      && res.1[identity] == reg[identity]
  {
    ResolveRegistered(host, reg, view, identity);
  }

  // ------------------------------------------------------- lemmas: rendering

  lemma {:induction false} ConcatAppend(a: seq<string>, b: seq<string>)
    ensures Concat(a + b) == Concat(a) + Concat(b)
    decreases a
  {
    if a != [] {
      assert (a + b)[0] == a[0];
      assert (a + b)[1..] == a[1..] + b;
      ConcatAppend(a[1..], b);
      assert Concat(a + b) == a[0] + (Concat(a[1..]) + Concat(b));
    } else {
      assert a + b == b;
    }
  }

  /** Rendering the attributes of `a + b` is rendering those of `a`, then those of `b`. */
  lemma AttributesRenderAppend(attribute: Attribute -> string, a: seq<Attribute>, b: seq<Attribute>)
    ensures AttributesRender(attribute, a + b) == AttributesRender(attribute, a) + AttributesRender(attribute, b)
  {
    var ra := seq(|a|, i requires 0 <= i < |a| => attribute(a[i]));
    var rb := seq(|b|, i requires 0 <= i < |b| => attribute(b[i]));
    assert seq(|a + b|, i requires 0 <= i < |a + b| => attribute((a + b)[i])) == ra + rb;
    ConcatAppend(ra, rb);
  }

  /** A block renders to its body applied to the context, whatever its attributes and children. */
  lemma RenderBlock<C, B>(host: Host<C, B>, reg: seq<Entry<C, B>>, b: B, attributes: seq<Attribute>, props: seq<Node<B>>, context: Context<C>)
    requires forall i :: 0 <= i < |props| ==> Registered(props[i], |reg|)
    ensures RenderNode(host, reg, Node(Inner.Block(b), attributes, props), context) == host.text(b, context)
  {
  }

  /** A component node renders as its registry entry, given its attributes and its children rendered in the same context. */
  lemma RenderComponent<C, B>(host: Host<C, B>, reg: seq<Entry<C, B>>, identity: Identity, attributes: seq<Attribute>, props: seq<Node<B>>, context: Context<C>)
    requires identity < |reg|
    requires forall i :: 0 <= i < |props| ==> Registered(props[i], |reg|)
    ensures var markup := RenderNode(host, reg, Node(Inner.Component(identity), attributes, props), context);
      exists rendered: seq<string> ::
        && |rendered| == |props|
        && (forall i :: 0 <= i < |props| ==> rendered[i] == RenderNode(host, reg, props[i], context))
        && markup == host.render(reg[identity], rendered, attributes)
  {
    var rendered := PropsNew(host, reg, props, context);
    assert RenderNode(host, reg, Node(Inner.Component(identity), attributes, props), context)
        == host.render(reg[identity], rendered, attributes);
  }

  /** Appending entries to the registry does not change the render of a registered node. */
  lemma {:induction false} RenderExtend<C, B>(host: Host<C, B>, reg: seq<Entry<C, B>>, more: seq<Entry<C, B>>, node: Node<B>, context: Context<C>)
    requires Registered(node, |reg|) && reg <= more
    ensures Registered(node, |more|)
    ensures RenderNode(host, reg, node, context) == RenderNode(host, more, node, context)
    decreases node, 1
  {
    RegisteredMonotone(node, |reg|, |more|);
    if node.inner.Component? {
      PropsNewExtend(host, reg, more, node.props, context);
    }
  }

  lemma {:induction false} PropsNewExtend<C, B>(host: Host<C, B>, reg: seq<Entry<C, B>>, more: seq<Entry<C, B>>, nodes: seq<Node<B>>, context: Context<C>)
    requires forall i :: 0 <= i < |nodes| ==> Registered(nodes[i], |reg|)
    requires reg <= more
    ensures forall i :: 0 <= i < |nodes| ==> Registered(nodes[i], |more|)
    ensures PropsNew(host, reg, nodes, context) == PropsNew(host, more, nodes, context)
    decreases nodes
  {
    forall i | 0 <= i < |nodes|
      ensures Registered(nodes[i], |more|)
      ensures RenderNode(host, reg, nodes[i], context) == RenderNode(host, more, nodes[i], context)
    {
      RenderExtend(host, reg, more, nodes[i], context);
    }
  }

  /** Inside Tree::render, an extraction reaches the component registered at the tree's identity. */
  lemma TreeExtract<C, B, Q>(reg: seq<Entry<C, B>>, tree: Tree<B>, props: seq<string>, attributes: seq<Attribute>, extract: (C, Q) -> string, query: Q)
    requires tree.identity < |reg|
    ensures TreeContext(reg, tree, props, attributes).Extract(extract, query) == extract(reg[tree.identity].component, query)
    ensures TreeContext(reg, tree, props, attributes).props == props
    ensures TreeContext(reg, tree, props, attributes).attributes == attributes
  {
  }
}
