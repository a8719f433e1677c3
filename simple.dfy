/**
 * The counter demo (examples/simple): an `App` component holding a count,
 * a single `Add` message that increments it, and a fixed view tree whose
 * heading shows the count.
 */
module Simple {
  import opened DomTree
  import opened Format

  /** The messages the app handles: there is exactly one. */
  datatype Message = Add

  /** The library components the view instantiates, each freshly created. */
  datatype Widget = Div | H1 | Button

  /** The two inline blocks of the view, holding what their closures capture. */
  datatype Snippet = Welcome(count: nat) | Increment

  const WelcomePrefix: string := "Welcome to saar web framework demo: "

  /** The heading's only attribute. */
  const Yellow: Attribute := Attribute("style", "background-color: yellow;")

  /** The blocks' bodies. The closures take no argument, so the context plays no part. */
  function SnippetText(snippet: Snippet, context: Context<Widget>): (text: string)
    ensures snippet.Welcome? ==>
      |text| > |WelcomePrefix| && text[..|WelcomePrefix|] == WelcomePrefix
      && text[|WelcomePrefix|..] == Decimal(snippet.count)
    ensures snippet.Increment? ==> text == "increment"
  {
    match snippet
    case Welcome(count) => WelcomePrefix + Decimal(count)
    case Increment => "increment"
  }

  /** App::view for a given count. */
  function ViewOf(count: nat): (view: Html<Widget, Snippet>)
    ensures Components(view) == [H1, Button, Div]
  {
    var welcome := Html(ComponentRef.Block(Welcome(count)), [], []);
    var increment := Html(ComponentRef.Block(Increment), [], []);
    var heading := Html(ComponentRef.Component(H1), [Yellow], [welcome]);
    var button := Html(ComponentRef.Component(Button), [], [increment]);
    assert [welcome][..0] == [] && [increment][..0] == [] && [heading, button][..1] == [heading];
    assert [heading][..0] == [] && ComponentsOfAll(increment.props) == [];
    assert Components(welcome) == [] && Components(increment) == [];
    assert ComponentsOfAll([welcome]) == [] && ComponentsOfAll([increment]) == [];
    assert Components(heading) == [H1] && Components(button) == [Button];
    assert ComponentsOfAll([heading]) == [H1];
    assert ComponentsOfAll([heading, button]) == [H1, Button];
    Html(ComponentRef.Component(Div), [], [heading, button])
  }

  class App {
    var count: nat

    /** App::create. */
    constructor Create()
      ensures count == 0
    {
      count := 0;
    }

    /** App::callback: `Add` increments the count and changes nothing else. */
    method Callback(message: Message)
      modifies this
      ensures count == old(count) + 1
    {
      match message
      case Add => count := count + 1;
    }

    /** App::view: reads the count and changes nothing. */
    function View(): (view: Html<Widget, Snippet>)
      reads this
      ensures view == ViewOf(count)
    {
      ViewOf(count)
    }
  }

  /** Starting from a fresh app, `n` `Add` messages leave the count at `n`. */
  method AfterAdds(n: nat) returns (app: App)
    ensures fresh(app) && app.count == n
  {
    app := new App.Create();
    for i := 0 to n
      invariant app.count == i
    {
      app.Callback(Add);
    }
  }

  // --------------------------------------------------------------- the view

  /** The root is a Div with no attributes and two children: an H1, then a Button. */
  lemma ViewShape(count: nat)
    ensures var view := ViewOf(count);
      && view.component == ComponentRef.Component(Div) && view.attributes == []
      && |view.props| == 2
      && view.props[0].component == ComponentRef.Component(H1)
      && view.props[1].component == ComponentRef.Component(Button)
  {
  }

  /** The H1 carries only the yellow style and one block that greets with the count. */
  lemma ViewHeading(count: nat, context: Context<Widget>)
    ensures var heading := ViewOf(count).props[0];
      && heading.attributes == [Attribute("style", "background-color: yellow;")]
      && |heading.props| == 1 && heading.props[0].component.Block?
      && SnippetText(heading.props[0].component.block, context) == WelcomePrefix + Decimal(count)
  {
  }

  /** The Button holds one block that reads "increment". */
  lemma ViewButton(count: nat, context: Context<Widget>)
    ensures var button := ViewOf(count).props[1];
      && button.attributes == []
      && |button.props| == 1 && button.props[0].component.Block?
      && SnippetText(button.props[0].component.block, context) == "increment"
  {
  }

  /** The entries resolving the view registers: H1, then Button, then the Div that contains them. */
  function ViewEntries(host: Host<Widget, Snippet>): seq<Entry<Widget, Snippet>>
  {
    [Entry(H1, host.view(H1)), Entry(Button, host.view(Button)), Entry(Div, host.view(Div))]
  }

  /** `k` copies of `s`, one after another. */
  function Repeat<T>(s: seq<T>, k: nat): seq<T>
  {
    if k == 0 then [] else Repeat(s, k - 1) + s
  }

  /** Resolving the view from a registry of `n` entries: the node tree it yields and the three entries it adds. */
  lemma {:induction false} ViewResolves(host: Host<Widget, Snippet>, reg: seq<Entry<Widget, Snippet>>, count: nat, identity: Identity)
    ensures var n := |reg|;
      ResolveNode(host, reg, ViewOf(count), identity) == (
        Node(Inner.Component(n + 2), [], [
          Node(Inner.Component(n), [Yellow], [Node(Inner.Block(Welcome(count)), [], [])]),
          Node(Inner.Component(n + 1), [], [Node(Inner.Block(Increment), [], [])])
        ]),
        reg + ViewEntries(host))
  {
    var view := ViewOf(count);
    var heading, button := view.props[0], view.props[1];
    var n := |reg|;
    var welcome := Node(Inner.Block(Welcome(count)), [], []);
    var increment := Node(Inner.Block(Increment), [], []);
    assert heading.props[..0] == [] && button.props[..0] == [] && view.props[..1] == [heading];
    assert ResolveNode(host, reg, heading.props[0], identity) == (welcome, reg);
    assert ResolveAll(host, reg, [], identity) == ([], reg);
    assert [] + [welcome] == [welcome];
    assert ResolveAll(host, reg, heading.props, identity) == ([welcome], reg);
    var reg1 := reg + [Entry(H1, host.view(H1))];
    assert ResolveNode(host, reg, heading, identity) == (Node(Inner.Component(n), [Yellow], [welcome]), reg1);
    assert [] + [Node(Inner.Component(n), [Yellow], [welcome])] == [Node(Inner.Component(n), [Yellow], [welcome])];
    assert ResolveAll(host, reg, view.props[..1], identity) == ([Node(Inner.Component(n), [Yellow], [welcome])], reg1);
    assert ResolveAll(host, reg1, [], identity) == ([], reg1);
    assert [] + [increment] == [increment];
    assert ResolveAll(host, reg1, button.props, identity) == ([increment], reg1);
    var reg2 := reg1 + [Entry(Button, host.view(Button))];
    assert ResolveNode(host, reg1, button, identity) == (Node(Inner.Component(n + 1), [], [increment]), reg2);
    assert view.props[..|view.props| - 1] == view.props[..1];
    assert view.props[|view.props| - 1] == button;
    assert [Node(Inner.Component(n), [Yellow], [welcome])] + [Node(Inner.Component(n + 1), [], [increment])]
        == [Node(Inner.Component(n), [Yellow], [welcome]), Node(Inner.Component(n + 1), [], [increment])];
    assert ResolveAll(host, reg, view.props, identity)
        == ([Node(Inner.Component(n), [Yellow], [welcome]), Node(Inner.Component(n + 1), [], [increment])], reg2);
    assert reg + ViewEntries(host) == reg2 + [Entry(Div, host.view(Div))];
  }

  /** The page the demo's view renders to, given the heading's text. */
  function Page(host: Host<Widget, Snippet>, heading: string): string
  {
    host.render(Entry(Div, host.view(Div)), [
      host.render(Entry(H1, host.view(H1)), [heading], [Yellow]),
      host.render(Entry(Button, host.view(Button)), ["increment"], [])
    ], [])
  }

  /** The page the view renders to: only the heading's text depends on the count. */
  lemma {:induction false} ViewRenders(host: Host<Widget, Snippet>, reg: seq<Entry<Widget, Snippet>>, count: nat, identity: Identity, context: Context<Widget>)
    requires host.text == SnippetText
    ensures var res := ResolveNode(host, reg, ViewOf(count), identity);
      && res.1 == reg + ViewEntries(host)
      && Registered(res.0, |res.1|)
      && RenderNode(host, res.1, res.0, context) == Page(host, WelcomePrefix + Decimal(count))
  {
    ViewResolves(host, reg, count, identity);
    var res := ResolveNode(host, reg, ViewOf(count), identity);
    var n := |reg|;
    var welcome := Node(Inner.Block(Welcome(count)), [], []);
    var increment := Node(Inner.Block(Increment), [], []);
    var heading := Node(Inner.Component(n), [Yellow], [welcome]);
    var button := Node(Inner.Component(n + 1), [], [increment]);
    assert res.1[n] == Entry(H1, host.view(H1));
    assert res.1[n + 1] == Entry(Button, host.view(Button));
    assert res.1[n + 2] == Entry(Div, host.view(Div));
    assert PropsNew(host, res.1, [welcome], context) == [WelcomePrefix + Decimal(count)];
    assert PropsNew(host, res.1, [increment], context) == ["increment"];
    assert PropsNew(host, res.1, res.0.props, context)
        == [RenderNode(host, res.1, heading, context), RenderNode(host, res.1, button, context)];
  }

  /** The heading's text names the count: different counts give different texts. */
  lemma CountShown(a: nat, b: nat)
    requires a != b
    ensures WelcomePrefix + Decimal(a) != WelcomePrefix + Decimal(b)
  {
    if WelcomePrefix + Decimal(a) == WelcomePrefix + Decimal(b) {
      assert Decimal(a) == (WelcomePrefix + Decimal(a))[|WelcomePrefix|..];
      DecimalInjective(a, b);
    }
  }

  /** The pages of counts `0` to `n - 1`, in order. */
  function Pages(host: Host<Widget, Snippet>, n: nat): seq<string>
  {
    if n == 0 then [] else Pages(host, n - 1) + [Page(host, WelcomePrefix + Decimal(n - 1))]
  }

  /** Page `i` of `Pages` shows count `i`. */
  lemma {:induction false} PagesShowCounts(host: Host<Widget, Snippet>, n: nat, i: nat)
    requires i < n
    ensures |Pages(host, n)| == n
    ensures Pages(host, n)[i] == Page(host, WelcomePrefix + Decimal(i))
  {
    if i < n - 1 {
      PagesShowCounts(host, n - 1, i);
    } else if n > 1 {
      PagesShowCounts(host, n - 1, 0);
    }
  }

  /**
   * One render of the app: its current view is resolved into the registry
   * and the resulting node is rendered. The page shows the current count.
   */
  method RenderApp(host: Host<Widget, Snippet>, reg: seq<Entry<Widget, Snippet>>, app: App, identity: Identity, context: Context<Widget>)
    returns (page: string, after: seq<Entry<Widget, Snippet>>)
    requires host.text == SnippetText
    ensures page == Page(host, WelcomePrefix + Decimal(app.count))
    ensures after == reg + ViewEntries(host)
  {
    var view := app.View();
    ViewRenders(host, reg, app.count, identity, context);
    var res := ResolveNode(host, reg, view, identity);
    page, after := RenderNode(host, res.1, res.0, context), res.1;
  }

  /**
   * A fresh app, rendered and then sent `Add`, `n` times over. Every render
   * resolves the app's current view into the registry the previous one left
   * behind and renders the resulting node; page `i` shows count `i`, and each
   * render adds the view's three entries to the registry.
   */
  method RenderAfterAdds(host: Host<Widget, Snippet>, reg: seq<Entry<Widget, Snippet>>, identity: Identity, context: Context<Widget>, n: nat)
    returns (pages: seq<string>, after: seq<Entry<Widget, Snippet>>)
    requires host.text == SnippetText
    ensures |pages| == n
    ensures forall i :: 0 <= i < n ==> pages[i] == Page(host, WelcomePrefix + Decimal(i))
    ensures after == reg + Repeat(ViewEntries(host), n)
  {
    var app := new App.Create();
    pages, after := [], reg;
    for k := 0 to n
      invariant app.count == k && |pages| == k
      invariant after == reg + Repeat(ViewEntries(host), k)
      invariant pages == Pages(host, k)
    {
      var page, next := RenderApp(host, after, app, identity, context);
      assert next == reg + Repeat(ViewEntries(host), k + 1) by {
        assert Repeat(ViewEntries(host), k + 1) == Repeat(ViewEntries(host), k) + ViewEntries(host);
      }
      pages, after := pages + [page], next;
      app.Callback(Add);
    }
    forall i | 0 <= i < n
      ensures pages[i] == Page(host, WelcomePrefix + Decimal(i))
    {
      PagesShowCounts(host, n, i);
    }
  }

  /** The heading's text for the counts 0, 1 and 2, spelled out. */
  lemma FirstHeadings()
    ensures WelcomePrefix + Decimal(0) == "Welcome to saar web framework demo: 0"
    ensures WelcomePrefix + Decimal(1) == "Welcome to saar web framework demo: 1"
    ensures WelcomePrefix + Decimal(2) == "Welcome to saar web framework demo: 2"
  {
  }

  /** The pages of a fresh app, after one `Add` and after a second `Add`. */
  method CounterScenario(host: Host<Widget, Snippet>, reg: seq<Entry<Widget, Snippet>>, identity: Identity, context: Context<Widget>)
    returns (pages: seq<string>, after: seq<Entry<Widget, Snippet>>)
    requires host.text == SnippetText
    ensures pages == [
      Page(host, "Welcome to saar web framework demo: 0"),
      Page(host, "Welcome to saar web framework demo: 1"),
      Page(host, "Welcome to saar web framework demo: 2")]
    ensures after == reg + ViewEntries(host) + ViewEntries(host) + ViewEntries(host)
  {
    var app := new App.Create();
    var first, second, third;
    first, after := RenderApp(host, reg, app, identity, context);
    app.Callback(Add);
    second, after := RenderApp(host, after, app, identity, context);
    app.Callback(Add);
    third, after := RenderApp(host, after, app, identity, context);
    FirstHeadings();
    pages := [first, second, third];
  }
}
