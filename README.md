# saar render pipeline, modelled in Dafny

saar is a component-based UI framework. A component's `view` returns a declarative
`Html` description. The framework resolves that description into a `Node` tree.
Resolving registers every embedded component instance in a global, append-only
registry (the `state` module), together with the component's own view. Rendering
then walks the node tree and produces one markup string.

This project models that core, from `packages/saar/src/dom/tree.rs`, and the
counter demo from `examples/simple/src/lib.rs` that drives it.

- `format.dfy`, module `Format`: decimal formatting of the count, as `format!("{}", count)` writes it.
- `tree.dfy`, module `DomTree`: the data model (`Html`, `ComponentRef`, `Inner`,
  `Node`, `Tree`, `Context`, `Attribute`, registry `Entry`). It also holds the registry
  as a class `Registry` whose `Push` returns the old length as the fresh identity.
  Resolution (`Inner::new`, `Node::new`, `Tree::new`) is modelled twice: as methods
  `NewInner`, `NewNode` and `NewTree` that append to a `Registry` object, and as the
  functions `ResolveInner`, `ResolveNode`, `ResolveAll` and `ResolveTree` over the
  registry's contents, which specify them. Rendering (`Node::render`, `Inner::render`,
  `Props::new`, `Props::render`, `Attributes::render`, `Tree::render`,
  `Context::extract`) is modelled as pure functions over the registry's contents.
- `simple.dfy`, module `Simple`: the `App` component as a class with a `count` field.
  It has `Create`, `Callback(Add)`, and `View`, which returns the fixed two-child tree.
  Lemmas resolve and render that tree.

Components are a type parameter `C` and inline blocks a type parameter `B`. Some parts
are not shown in the source: a component's `view`, the rendering of a registry entry,
a block's body and `Attribute::render`. They are passed in as the fields of a `Host`
value. Every result holds whatever these functions compute. For the demo, blocks are
the datatype `Snippet`, which holds what each closure captures, and `SnippetText` gives
their bodies.

Reading chosen where the source is unfinished:
- `Props::new(props, )` at tree.rs:95 has no context. A resolved node therefore keeps
  its child nodes. At render time they are rendered with the caller's context, as
  `Props::new(nodes, context)` (tree.rs:61-64) does. The source renders the children
  once, while building the node (tree.rs:95). The model renders them on every render,
  with the caller's context.
- `Node::new` resolves the children first (tree.rs:86-88) and only then calls
  `Inner::new` on the node's own reference (tree.rs:93). The registry therefore receives
  the children's components before their parent's. Registering the parent before its
  children would give pre-order; the code gives post-order, and `Components` lists
  components in that post-order.
- A block is `fn(Context) -> String` at tree.rs:12, but the demo's closures take no
  argument (lib.rs:68, lib.rs:85). The model gives a block its context, and the demo's
  blocks ignore it.
- `Node::new` passes its `identity` argument unchanged to every child and stores it
  nowhere. The model does the same.
- An unknown identity makes `state::get` fail. The render functions require every
  identity in the tree to be registered (`Registered`). `ResolveRegistered` proves that
  resolution only produces such identities.

## Model

| member | source | states |
|---|---|---|
| `DomTree.Registry.Push` | packages/saar/src/dom/tree.rs:21 | pushing appends exactly one entry (component, view snapshot) and returns the old length as the identity; earlier entries are unchanged |
| `DomTree.ResolveInner` | packages/saar/src/dom/tree.rs:16-25 | a component reference yields the fresh identity `|reg|` and grows the registry by one entry that holds the component and its own `view()`; earlier entries are kept; a block yields the same block and leaves the registry unchanged |
| `DomTree.NewInner` | packages/saar/src/dom/tree.rs:16-25 | on the registry object: a component is pushed with its view and its identity returned; a block leaves the registry as it was |
| `DomTree.ResolveNode` | packages/saar/src/dom/tree.rs:85-97 | resolution only extends the registry, and the node has as many children as the description |
| `DomTree.ResolveTree` | packages/saar/src/dom/tree.rs:110-115 | the tree keeps the given identity; the registry becomes the old one plus one snapshot per component of the view, in resolution order; the node has the description's shape. `ResolveTreeRenderable` shows the result can be rendered |
| `DomTree.ResolveAll` | packages/saar/src/dom/tree.rs:86-88 | the children are resolved left to right, each from the registry its predecessors left; one node per description; the registry only grows |
| `DomTree.NewNode` | packages/saar/src/dom/tree.rs:85-97 | the recursive method with its loop over the children produces exactly the node and registry that `ResolveNode` specifies |
| `DomTree.NewTree` | packages/saar/src/dom/tree.rs:110-115 | the tree keeps the given identity; the registry becomes the old one plus one snapshot per component of the view, in resolution order; the tree's identities are exactly the new positions; the tree has the description's shape |
| `DomTree.ResolveRegistry` | packages/saar/src/dom/tree.rs:85-96 | after resolution the registry is the old registry followed by `(component, view())` for each component reference, in order, so it grows by exactly the number of component references |
| `DomTree.ResolveAllRegistry` | packages/saar/src/dom/tree.rs:86-88 | the same, for a list of children resolved in order |
| `DomTree.ResolveIdentities` | packages/saar/src/dom/tree.rs:18-21 | the identities in a resolved tree, in resolution order, are the consecutive fresh positions `|reg|`, ..., `|reg'| - 1` |
| `DomTree.ResolveAllIdentities` | packages/saar/src/dom/tree.rs:86-88 | the same, for a list of children |
| `DomTree.ResolveLookup` | packages/saar/src/dom/tree.rs:18-21 | identities handed out are pairwise distinct, and each one looks up the component it was created for, with that component's own view |
| `DomTree.ResolveShape` | packages/saar/src/dom/tree.rs:85-96 | resolution preserves the tree's shape: the component or block kind, the block itself, the attributes, and the number and order of children at every level |
| `DomTree.ResolveAllShape` | packages/saar/src/dom/tree.rs:86-88 | child `i` of the result has the shape of description `i` |
| `DomTree.ResolveAllInOrder` | packages/saar/src/dom/tree.rs:86-88 | child `k` is `Node::new` of description `k`, with the same identity argument, run on the registry that children `0..k` left behind |
| `DomTree.ResolveRegistered` | packages/saar/src/dom/tree.rs:18-29 | every identity in a resolved node names an entry of the registry after resolution, so the lookups of `Inner::render` cannot fail |
| `DomTree.ResolveAllRegistered` | packages/saar/src/dom/tree.rs:86-88 | the same, for every resolved child |
| `DomTree.ResolveTreeRenderable` | packages/saar/src/dom/tree.rs:110-121 | a tree resolved for a registered owner meets every precondition of `Tree::render` on the resulting registry, and the owner's entry is unchanged |
| `DomTree.RenderNode` | packages/saar/src/dom/tree.rs:27-32 | a block node renders to the block's body applied to the context; a component node renders as its registry entry's render, given the node's children rendered in order in the same context (`PropsNew`) and the node's attributes. `RenderBlock` and `RenderComponent` state each case as a lemma; `RenderExtend` shows appending entries does not change it |
| `DomTree.PropsNew` | packages/saar/src/dom/tree.rs:61-69 | one string per child node, in order, each the child rendered with the same context |
| `DomTree.Concat` | packages/saar/src/dom/tree.rs:71-75 | collecting no strings gives `""`; collecting one gives that string |
| `DomTree.ConcatAppend` | packages/saar/src/dom/tree.rs:71-75 | collecting `a + b` is collecting `a`, then `b`: the result is the in-order concatenation |
| `DomTree.AttributesRender` | packages/saar/src/dom/tree.rs:47-51 | no attributes render to `""`; one attribute renders as its own rendering |
| `DomTree.AttributesRenderAppend` | packages/saar/src/dom/tree.rs:47-51 | the attributes of `a + b` render as those of `a` followed by those of `b` |
| `DomTree.RenderBlock` | packages/saar/src/dom/tree.rs:27-32 | a block node renders to `f(context)`, whatever its attributes and children |
| `DomTree.RenderComponent` | packages/saar/src/dom/tree.rs:27-32 | a component node with a registered identity renders as its registry entry's render, given the node's attributes and its children rendered in order in the same context |
| `DomTree.RenderExtend` | packages/saar/src/dom/tree.rs:99-101 | appending entries to the registry does not change the render of a registered node |
| `DomTree.PropsNewExtend` | packages/saar/src/dom/tree.rs:61-64 | appending entries to the registry does not change the rendered children |
| `DomTree.Context.Extract` | packages/saar/src/dom/tree.rs:140-142 | a query is answered by the extract function of the component that owns the context. `TreeExtract` shows that inside `Tree::render` this is the component registered at the tree's identity |
| `DomTree.TreeContext` | packages/saar/src/dom/tree.rs:118-120 | the context `Tree::render` builds holds the component registered at the tree's identity and the given props and attributes |
| `DomTree.TreeRender` | packages/saar/src/dom/tree.rs:117-121 | the tree's node is rendered in the owner's context: a block gets its body applied to that context, and a component is its entry's render of its children rendered in that context, with its attributes |
| `DomTree.TreeExtract` | packages/saar/src/dom/tree.rs:117-142 | the context `Tree::render` builds holds the component registered at the tree's identity and the given props and attributes, so `extract` queries reach that component |
| `Format.Decimal` | examples/simple/src/lib.rs:68 | the numeral of the count is non-empty and all digits; it has one digit exactly when the count is below 10; a longer numeral has no leading zero; its last digit is `n % 10` |
| `Format.ValueOfDecimal` | examples/simple/src/lib.rs:68 | reading the numeral back, most significant digit first, gives the count: the numeral denotes exactly `n` |
| `Format.DecimalInjective` | examples/simple/src/lib.rs:68 | different counts are written differently |
| `Simple.SnippetText` | examples/simple/src/lib.rs:68-85 | the welcome block yields `"Welcome to saar web framework demo: "` followed by the decimal count; the button block yields `"increment"`. This is the closures' text written out; what the view does with it is stated by `ViewHeading`, `ViewButton`, `CountShown` and `ViewRenders` |
| `Simple.App.Create` | examples/simple/src/lib.rs:26-30 | a new app has `count == 0` |
| `Simple.App.Callback` | examples/simple/src/lib.rs:32-39 | `Add` (the only message) increases `count` by exactly 1 and changes nothing else |
| `Simple.ViewOf` | examples/simple/src/lib.rs:55-94 | the view registers the components `H1`, `Button` and `Div`, in that order. `ViewShape`, `ViewHeading` and `ViewButton` state its shape |
| `Simple.App.View` | examples/simple/src/lib.rs:44-96 | the view reads only `count`, changes nothing, and is the fixed tree `ViewOf(count)`. The shape of that tree is stated by `ViewShape`, `ViewHeading` and `ViewButton`, its resolution by `ViewResolves` and its page by `ViewRenders` |
| `Simple.AfterAdds` | examples/simple/src/lib.rs:26-36 | starting from `create`, `n` `Add` messages leave `count == n` |
| `Simple.ViewShape` | examples/simple/src/lib.rs:55-94 | the root is a `Div` with no attributes and two children, an `H1` and then a `Button` |
| `Simple.ViewHeading` | examples/simple/src/lib.rs:61-75 | the `H1` has exactly the attribute `style` = `"background-color: yellow;"` and one block child showing the welcome text with the count |
| `Simple.ViewButton` | examples/simple/src/lib.rs:77-93 | the `Button` has no attributes and one block child producing `"increment"` |
| `Simple.ViewResolves` | examples/simple/src/lib.rs:55-94 | resolving the view registers `H1`, then `Button`, then `Div`, each with its own view, and yields the node tree with those three identities and the two blocks |
| `Simple.ViewRenders` | examples/simple/src/lib.rs:55-94 | resolving the view adds its three entries to the registry; the resolved view can be rendered, and the page (`Page`) is the `Div` entry's render of the `H1` entry's render of the welcome text and the `Button` entry's render of `"increment"`; only the welcome text depends on the count |
| `Simple.CountShown` | examples/simple/src/lib.rs:68 | different counts give different welcome texts |
| `Simple.RenderApp` | examples/simple/src/lib.rs:44-96 | one render of an app: its current view is resolved into the registry, which grows by the view's three entries, and the node renders to the page whose heading shows the app's count |
| `Simple.RenderAfterAdds` | examples/simple/src/lib.rs:26-96 | a fresh app rendered and sent `Add`, `n` times over: page `i` is the page showing count `i`, and the registry grows by the view's three entries per render |
| `Simple.PagesShowCounts` | examples/simple/src/lib.rs:68 | the list of pages for counts `0..n` has `n` pages, and page `i` shows count `i` |
| `Simple.FirstHeadings` | examples/simple/src/lib.rs:68 | the heading reads `"Welcome to saar web framework demo: 0"`, `"...: 1"` and `"...: 2"` for the counts 0, 1 and 2 |
| `Simple.CounterScenario` | examples/simple/src/lib.rs:26-96 | a new app, then one `Add`, then a second `Add`, each resolved and rendered in turn: the three pages are the `Div` entry's render of the `H1` entry's render of `"Welcome to saar web framework demo: 0"` (then `1`, then `2`) with the yellow style, and the `Button` entry's render of `"increment"`; the registry grows by the three entries each time |

## Left out

- `packages/saar/src/render.rs` (the `Renderer`) is not part of this model. It acquires the window, document and body; it writes the markup with `set_inner_html`; it logs to the console; and it loops forever on a scheduler channel that is not shown. The callback it receives is never dispatched. What it does with the core: it pushes the root component with its view as identity 0, then renders the entry at identity 0 again after every event.
- The `wasm_bindgen` entry point `main` of the demo and all `web_sys` and `JsValue` types: host bindings.
- `App::extract`: its body is empty, so it has no defined behaviour. `Context::extract` is modelled as forwarding the query to the owning component's extract function.
- `Arc`, `dyn Component` and `Box<dyn Any>` downcasting: messages are the closed datatype `Message`, with `Add` as its only variant, so the `unreachable!()` branch of `callback` cannot occur. Queries are a type parameter.
- Some parts are not shown in the source and are parameters (fields of `Host`): the `state` module's entry render, `Attribute::render`, and the `Div`, `H1` and `Button` components of `saar_components` (their `view` and rendering).
- The unused third argument of `Html::new`: it is always `Vec::new()`.
- Concurrency: the registry's synchronisation and the scheduler channel. Access is sequential in the source.
- `Simple.App.Callback`: does not model `usize` overflow of `count += 1` at 2^64 - 1. The count is a mathematical natural number.
