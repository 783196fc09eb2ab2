/**
 What prefix blocks do to the names inside them.
 */
module Prefixes {
  import opened Ir
  import opened Interp
  import opened Surface

  function FormAt(forms: Forms, k: nat): Form
    requires k < FormCount(forms)
  {
    if k == 0 then forms.head else FormAt(forms.tail, k - 1)
  }

  predicate Defines(form: Form) { form.BindForm? || form.CellsForm? || form.RecordForm? }

  /** `leaf` is a definition inside prefix blocks called `blocks`, outermost first; `path` says
      which of its block's forms each one is. */
  predicate Encloses(form: Form, path: seq<nat>, blocks: seq<string>, leaf: Form)
    decreases |path|
  {
    if path == [] then blocks == [] && leaf == form && Defines(leaf)
    else
      && form.InForm? && path[0] < FormCount(form.forms) && blocks != [] && blocks[0] == form.name
      && Encloses(FormAt(form.forms, path[0]), path[1..], blocks[1..], leaf)
  }

  /** Following the items of sequences from node `id` leads to node `d`. */
  ghost predicate Leads(p: Program, id: nat, path: seq<nat>, d: nat)
    decreases |path|
  {
    if path == [] then d == id
    else
      && id < |p.nodes| && p.nodes[id].Seq? && path[0] < p.nodes[id].itemCount && p.nodes[id].firstItem + path[0] < |p.links|
      && Leads(p, Part(p, id, path[0]), path[1..], d)
  }

  lemma {:induction false} FormMeansAt(env: Env, forms: Forms, p: Program, first: nat, n: nat, k: nat) returns (m: nat)
    requires FormsMean(env, forms, p, first, n) && k < FormCount(forms)
    ensures first + k < |p.links| && FormMeans(env, FormAt(forms, k), p, p.links[first + k], m)
    decreases k
  {
    hide FormMeans;
    if k == 0 {
      m := n;
    } else {
      m := FormMeansAt(env, forms.tail, p, first + 1, n + UsedForm(forms.head), k - 1);
    }
  }

  /**
   The slot that a definition writes is spelled by the names of the blocks around it and its
   own, with dots between them; a record definition carries that very name. What it binds is
   translated with the names of those blocks as its prefix.
   */
  lemma {:induction false} NestedDefinition(env: Env, form: Form, p: Program, id: nat, n: nat,
      path: seq<nat>, blocks: seq<string>, leaf: Form)
    returns (d: nat, inside: Env, m: nat)
    requires FormMeans(env, form, p, id, n) && Encloses(form, path, blocks, leaf)
    ensures Defines(leaf) && Leads(p, id, path, d) && d < |p.nodes| && p.nodes[d].WriteSlot? && !p.nodes[d].requireExisting
    ensures Spells(p.nodes[d].name, env.prefix + blocks + [leaf.name])
    ensures inside == env.(prefix := env.prefix + blocks)
    ensures leaf.BindForm? ==> Means(inside, leaf.value, p, p.nodes[d].value, m)
    ensures leaf.RecordForm? ==> RecordAt(p, p.nodes[d].value, p.nodes[d].name, leaf.fields)
    decreases |path|
  {
    hide Means, RecordAt, BuiltinAt, LiteralAt, ItemMeans, FormsMean;
    if path == [] {
      assert env.prefix + blocks == env.prefix;
      d, inside, m := id, env, n;
    } else {
      var below := Prefixed(env, form.name);
      var k := FormMeansAt(below, form.forms, p, p.nodes[id].firstItem, n, path[0]);
      assert blocks == [form.name] + blocks[1..];
      assert below.prefix + blocks[1..] == env.prefix + blocks;
      d, inside, m := NestedDefinition(below, FormAt(form.forms, path[0]), p, Part(p, id, path[0]), k, path[1..], blocks[1..], leaf);
    }
  }

  /** Inside prefix blocks a name without a dot that no local answers to is read from the
      blocks' own slot first and from the slot of that very name second. */
  lemma NestedRead(env: Env, x: Token, p: Program, id: nat, n: nat)
    requires Means(env, Name(x), p, id, n) && Surface.Resolve(env, x).Global? && env.prefix != [] && '.' !in x
    ensures p.nodes[id].ReadSlotFallback? && Spells(p.nodes[id].name, env.prefix + [x]) && p.nodes[id].fallback == x
  {
    hide Spells, Surface.Resolve;
  }

  lemma NestedWrite(env: Env, x: Token, value: Expr, p: Program, id: nat, n: nat)
    requires ItemMeans(env, Set(Name(x), value), p, id, n) && Surface.Resolve(env, x).Global? && env.prefix != [] && '.' !in x
    ensures p.nodes[id].WriteSlotFallback? && Spells(p.nodes[id].name, env.prefix + [x]) && p.nodes[id].fallback == x
    ensures p.nodes[id].requireExisting
  {
    hide Spells, Surface.Resolve, Means;
  }
}
