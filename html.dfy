/**
 * The part of BeautifulSoup the scrapers rely on: a parsed markup tree,
 * `find` (first matching descendant in document order), `find_all`,
 * `get_text`, and the document-order list of elements that `find_next`
 * walks.
 */
module Html {
  import opened Wrappers

  /**
   * A parsed node. `classes` is the class attribute as BeautifulSoup keeps
   * it, already split on whitespace into tokens; `id` is absent when the
   * element has no id attribute. The document itself is an `Elem` whose
   * children are the top-level nodes.
   */
  datatype Node =
    | Text(text: string)
    | Elem(tag: string, classes: seq<string>, id: Option<string>, children: seq<Node>)

  /** The filters the scrapers pass to `find`: a tag name with `class_=` or with `id=`. */
  datatype Query =
    | ByClass(tag: string, cls: string)
    | ById(tag: string, idValue: string)

  /** The class tokens joined by single spaces, as BeautifulSoup rebuilds the attribute. */
  function JoinSpace(ws: seq<string>): string
  {
    if |ws| == 0 then "" else if |ws| == 1 then ws[0] else ws[0] + " " + JoinSpace(ws[1..])
  }

  /**
   * `class_="..."` on a multi-valued attribute: the wanted string equals one
   * token, or the whole attribute rebuilt with single spaces. A multi-word
   * filter such as "chakra-text css-113t1jt" can therefore only match the
   * whole attribute.
   */
  predicate ClassMatches(classes: seq<string>, wanted: string)
  {
    wanted in classes || (classes != [] && JoinSpace(classes) == wanted)
  }

  /**
   * When the class tokens hold no space, a filter with a space in it matches
   * exactly when it is the whole attribute, tokens joined by single spaces.
   */
  lemma MultiWordMatchesWholeAttribute(classes: seq<string>, wanted: string)
    requires ' ' in wanted
    requires forall i :: 0 <= i < |classes| ==> ' ' !in classes[i]
    ensures ClassMatches(classes, wanted) <==> classes != [] && JoinSpace(classes) == wanted
  {
  }

  /** A filter with no space matches exactly when it is one of the tokens, or the single token's whole attribute. */
  lemma SingleWordMatchesToken(classes: seq<string>, wanted: string)
    requires ' ' !in wanted
    ensures ClassMatches(classes, wanted) <==> wanted in classes
  {
  }

  predicate Matches(n: Node, q: Query)
  {
    && n.Elem?
    && n.tag == q.tag
    && match q
       case ByClass(_, c) => ClassMatches(n.classes, c)
       case ById(_, i) => n.id == Some(i)
  }

  /** The proper descendants of `n` in document (pre-)order: BeautifulSoup's `descendants`. */
  function Descendants(n: Node): seq<Node>
  {
    if n.Text? then [] else Preorder(n.children)
  }

  /** Each node of a forest followed by its descendants, left to right. */
  function Preorder(ns: seq<Node>): seq<Node>
    decreases ns
  {
    if ns == [] then [] else [ns[0]] + Descendants(ns[0]) + Preorder(ns[1..])
  }

  // ---------------------------------------------------------------------
  // find
  // ---------------------------------------------------------------------

  /**
   * `n.find(name, filter)`: the first proper descendant of `n` that matches
   * `q`, searching depth first, or `None`. `n` itself is never a candidate.
   */
  function Find(n: Node, q: Query): (r: Option<Node>)
    ensures r.Some? ==> Matches(r.value, q) && r.value in Descendants(n)
    ensures r.None? <==> forall x :: x in Descendants(n) ==> !Matches(x, q)
  {
    match n
    case Text(_) => None
    case Elem(_, _, _, cs) => FindIn(cs, q)
  }

  /** Depth-first search of a forest: each node, then inside it, then its right siblings. */
  function FindIn(ns: seq<Node>, q: Query): (r: Option<Node>)
    ensures r.Some? ==> Matches(r.value, q) && r.value in Preorder(ns)
    ensures r.None? <==> forall x :: x in Preorder(ns) ==> !Matches(x, q)
    decreases ns
  {
    if ns == [] then None
    else if Matches(ns[0], q) then Some(ns[0])
    else
      var inner := Find(ns[0], q);
      if inner.Some? then inner else FindIn(ns[1..], q)
  }

  /** Reference definition: the first element of a flat node list that matches `q`. */
  function FirstOf(xs: seq<Node>, q: Query): Option<Node>
  {
    if xs == [] then None else if Matches(xs[0], q) then Some(xs[0]) else FirstOf(xs[1..], q)
  }

  /** Index of the first element of `xs` that matches `q`. */
  function FirstIndex(xs: seq<Node>, q: Query): (r: Option<nat>)
    ensures r.Some? ==> r.value < |xs| && Matches(xs[r.value], q)
    ensures r.Some? ==> forall j :: 0 <= j < r.value ==> !Matches(xs[j], q)
    ensures r.None? ==> forall j :: 0 <= j < |xs| ==> !Matches(xs[j], q)
  {
    if xs == [] then None
    else if Matches(xs[0], q) then Some(0)
    else match FirstIndex(xs[1..], q)
      case None => None
      case Some(k) => Some(k + 1)
  }

  lemma {:induction false} FirstOfAppend(a: seq<Node>, b: seq<Node>, q: Query)
    ensures FirstOf(a + b, q) == if FirstOf(a, q).Some? then FirstOf(a, q) else FirstOf(b, q)
  {
    if a != [] {
      assert (a + b)[0] == a[0];
      assert (a + b)[1..] == a[1..] + b;
      FirstOfAppend(a[1..], b, q);
    } else {
      assert a + b == b;
    }
  }

  lemma {:induction false} FirstIndexAtFirstOf(xs: seq<Node>, q: Query)
    ensures FirstOf(xs, q) == match FirstIndex(xs, q) case None => None case Some(k) => Some(xs[k])
  {
    if xs != [] && !Matches(xs[0], q) {
      FirstIndexAtFirstOf(xs[1..], q);
    }
  }

  /** `find` is the first match of the pre-order descendant list. */
  lemma {:induction false} FindIsFirstInPreorder(n: Node, q: Query)
    ensures Find(n, q) == FirstOf(Descendants(n), q)
  {
    if n.Elem? {
      FindInIsFirstInPreorder(n.children, q);
    }
  }

  lemma {:induction false} FindInIsFirstInPreorder(ns: seq<Node>, q: Query)
    ensures FindIn(ns, q) == FirstOf(Preorder(ns), q)
    decreases ns
  {
    if ns != [] {
      var d := Descendants(ns[0]);
      var rest := Preorder(ns[1..]);
      assert Preorder(ns) == [ns[0]] + (d + rest);
      FindIsFirstInPreorder(ns[0], q);
      FindInIsFirstInPreorder(ns[1..], q);
      FirstOfAppend(d, rest, q);
    }
  }

  /**
   * Extra subtrees appended after a forest in which `find` already succeeds
   * do not change what `find` returns: only the first match counts.
   */
  lemma {:induction false} FindInAppendAfterHit(ns: seq<Node>, more: seq<Node>, q: Query)
    requires FindIn(ns, q).Some?
    ensures FindIn(ns + more, q) == FindIn(ns, q)
    decreases ns
  {
    assert (ns + more)[0] == ns[0];
    if !Matches(ns[0], q) && Find(ns[0], q).None? {
      assert (ns + more)[1..] == ns[1..] + more;
      FindInAppendAfterHit(ns[1..], more, q);
    }
  }

  /** Appending subtrees to a forest with no match: `find` then searches only the new ones. */
  lemma {:induction false} FindInAppendAfterMiss(ns: seq<Node>, more: seq<Node>, q: Query)
    requires FindIn(ns, q).None?
    ensures FindIn(ns + more, q) == FindIn(more, q)
    decreases ns
  {
    if ns == [] {
      assert ns + more == more;
    } else {
      assert (ns + more)[0] == ns[0];
      assert (ns + more)[1..] == ns[1..] + more;
      FindInAppendAfterMiss(ns[1..], more, q);
    }
  }

  // ---------------------------------------------------------------------
  // find_all
  // ---------------------------------------------------------------------

  /** The elements of `xs` that match `q`, in order. */
  /** The elements of `xs` that match `q`, in their order: exactly the matching ones are kept. */
  function Filter(xs: seq<Node>, q: Query): (r: seq<Node>)
    ensures |r| <= |xs|
  {
    if xs == [] then []
    else if Matches(xs[0], q) then [xs[0]] + Filter(xs[1..], q)
    else Filter(xs[1..], q)
  }

  lemma {:induction false} FilterKeepsMatches(xs: seq<Node>, q: Query, x: Node)
    ensures x in Filter(xs, q) <==> x in xs && Matches(x, q)
  {
    if xs != [] {
      FilterKeepsMatches(xs[1..], q, x);
      assert xs == [xs[0]] + xs[1..];
    }
  }

  lemma FilterKeepsAllMatches(xs: seq<Node>, q: Query)
    ensures forall x :: x in Filter(xs, q) <==> x in xs && Matches(x, q)
  {
    forall x {
      FilterKeepsMatches(xs, q, x);
    }
  }

  /** `find_all`: every matching descendant, in document order. */
  function FindAll(n: Node, q: Query): (r: seq<Node>)
    ensures forall x :: x in r <==> x in Descendants(n) && Matches(x, q)
  {
    FilterKeepsAllMatches(Descendants(n), q);
    Filter(Descendants(n), q)
  }

  // ---------------------------------------------------------------------
  // get_text
  // ---------------------------------------------------------------------

  /** `get_text()` / `.text`: all text below the node, concatenated in document order. */
  function GetText(n: Node): string
  {
    match n
    case Text(s) => s
    case Elem(_, _, _, cs) => ForestText(cs)
  }

  function ForestText(ns: seq<Node>): string
    decreases ns
  {
    if ns == [] then "" else GetText(ns[0]) + ForestText(ns[1..])
  }

  /** Reference definition: the strings of the text nodes of a flat node list, concatenated. */
  function TextRuns(xs: seq<Node>): string
  {
    if xs == [] then "" else (if xs[0].Text? then xs[0].text else "") + TextRuns(xs[1..])
  }

  lemma {:induction false} TextRunsAppend(a: seq<Node>, b: seq<Node>)
    ensures TextRuns(a + b) == TextRuns(a) + TextRuns(b)
  {
    if a == [] {
      assert a + b == b;
    } else {
      assert (a + b)[0] == a[0];
      assert (a + b)[1..] == a[1..] + b;
      TextRunsAppend(a[1..], b);
    }
  }

  /** The text of an element is exactly the text nodes among its descendants, in order. */
  lemma {:induction false} GetTextIsTextRuns(n: Node)
    requires n.Elem?
    ensures GetText(n) == TextRuns(Descendants(n))
  {
    ForestTextIsTextRuns(n.children);
  }

  lemma {:induction false} ForestTextIsTextRuns(ns: seq<Node>)
    ensures ForestText(ns) == TextRuns(Preorder(ns))
    decreases ns
  {
    if ns != [] {
      var head := ns[0];
      var rest := Preorder(ns[1..]);
      assert Preorder(ns) == ([head] + Descendants(head)) + rest;
      TextRunsAppend([head] + Descendants(head), rest);
      NodeTextIsTextRuns(head);
      ForestTextIsTextRuns(ns[1..]);
    }
  }

  /** The text of one node is the text runs of the node followed by its descendants. */
  lemma {:induction false} NodeTextIsTextRuns(n: Node)
    ensures GetText(n) == TextRuns([n] + Descendants(n))
    decreases n, 0
  {
    var d := Descendants(n);
    TextRunsAppend([n], d);
    assert TextRuns([n]) == (if n.Text? then n.text else "") by {
      assert [n][1..] == [];
    }
    if n.Elem? {
      ForestTextIsTextRuns(n.children);
    }
  }

  // ---------------------------------------------------------------------
  // The document as a flat list (what find_next walks)
  // ---------------------------------------------------------------------

  /** A node at index `i` of `s` followed by the run `dx` keeps both when `s` is placed after `pre`. */
  lemma RunAfterPrefix<T>(pre: seq<T>, s: seq<T>, i: nat, dx: seq<T>)
    requires i + 1 + |dx| <= |s| && s[i + 1 .. i + 1 + |dx|] == dx
    ensures (pre + s)[|pre| + i] == s[i]
    ensures (pre + s)[|pre| + i + 1 .. |pre| + i + 1 + |dx|] == dx
  {
    var all := pre + s;
    assert forall m :: 0 <= m < |dx| ==> all[|pre| + i + 1 .. |pre| + i + 1 + |dx|][m] == dx[m];
  }

  /** A node at index `i` of `s` followed by the run `dx` keeps both when `suf` is placed after `s`. */
  lemma RunBeforeSuffix<T>(s: seq<T>, suf: seq<T>, i: nat, dx: seq<T>)
    requires i + 1 + |dx| <= |s| && s[i + 1 .. i + 1 + |dx|] == dx
    ensures (s + suf)[i] == s[i]
    ensures (s + suf)[i + 1 .. i + 1 + |dx|] == dx
  {
    var all := s + suf;
    assert forall m :: 0 <= m < |dx| ==> all[i + 1 .. i + 1 + |dx|][m] == dx[m];
  }

  /**
   * In the pre-order list of a forest, every node is immediately followed by
   * exactly its own descendants: the descendants of the node at index `k`
   * occupy the indices `k + 1 .. k + |Descendants|`.
   */
  lemma {:induction false} PreorderSubtreeIsContiguous(ns: seq<Node>, k: nat)
    requires k < |Preorder(ns)|
    ensures k + 1 + |Descendants(Preorder(ns)[k])| <= |Preorder(ns)|
    ensures Preorder(ns)[k + 1 .. k + 1 + |Descendants(Preorder(ns)[k])|] == Descendants(Preorder(ns)[k])
    decreases ns, 1
  {
    if k == 0 {
      ContiguousAtRoot(ns);
    } else if k <= |Descendants(ns[0])| {
      ContiguousInFirstTree(ns, k);
    } else {
      ContiguousInLaterTrees(ns, k);
    }
  }

  /** The case of `PreorderSubtreeIsContiguous` for the first root. */
  lemma ContiguousAtRoot(ns: seq<Node>)
    requires ns != []
    ensures 1 + |Descendants(Preorder(ns)[0])| <= |Preorder(ns)|
    ensures Preorder(ns)[1 .. 1 + |Descendants(Preorder(ns)[0])|] == Descendants(Preorder(ns)[0])
  {
    var d := Descendants(ns[0]);
    var t := [ns[0]] + d;
    assert t[1 .. 1 + |d|] == d;
    RunBeforeSuffix(t, Preorder(ns[1..]), 0, d);
  }

  /** The case of `PreorderSubtreeIsContiguous` for a descendant of the first root. */
  lemma {:induction false} ContiguousInFirstTree(ns: seq<Node>, k: nat)
    requires ns != [] && 0 < k <= |Descendants(ns[0])|
    ensures k < |Preorder(ns)|
    ensures k + 1 + |Descendants(Preorder(ns)[k])| <= |Preorder(ns)|
    ensures Preorder(ns)[k + 1 .. k + 1 + |Descendants(Preorder(ns)[k])|] == Descendants(Preorder(ns)[k])
    decreases ns, 0
  {
    var head := ns[0];
    var d := Descendants(head);
    assert head.Elem?;
    PreorderSubtreeIsContiguous(head.children, k - 1);
    var dx := Descendants(d[k - 1]);
    RunAfterPrefix([head], d, k - 1, dx);
    RunBeforeSuffix([head] + d, Preorder(ns[1..]), k, dx);
  }

  /** The case of `PreorderSubtreeIsContiguous` for a node of a later tree. */
  lemma {:induction false} ContiguousInLaterTrees(ns: seq<Node>, k: nat)
    requires ns != [] && |Descendants(ns[0])| < k < |Preorder(ns)|
    ensures k + 1 + |Descendants(Preorder(ns)[k])| <= |Preorder(ns)|
    ensures Preorder(ns)[k + 1 .. k + 1 + |Descendants(Preorder(ns)[k])|] == Descendants(Preorder(ns)[k])
    decreases ns, 0
  {
    var t := [ns[0]] + Descendants(ns[0]);
    var rest := Preorder(ns[1..]);
    var j := k - |t|;
    PreorderSubtreeIsContiguous(ns[1..], j);
    RunAfterPrefix(t, rest, j, Descendants(rest[j]));
  }
}
