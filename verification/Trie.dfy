/** The prefix automaton of src/bridge.js: a trie of heap nodes built from the token encodings of the
    admissible values and ABSTAIN, and walked to mask the next token of a constrained decode. */
module Trie {
  import opened Options

  type Word = seq<nat>

  /** Some word starts with p. */
  ghost predicate Live(words: set<Word>, p: Word) {
    exists w :: w in words && p <= w
  }

  ghost function Child(p: Word, id: nat): Word {
    p + [id]
  }

  ghost function Parent(p: Word): Word
    requires p != []
  {
    p[..|p| - 1]
  }

  lemma ChildOfPrefix(word: Word, i: nat)
    requires i < |word|
    ensures Child(word[..i], word[i]) == word[..i + 1]
  {
  }

  lemma ChildInjective()
    ensures forall p, id {:trigger Child(p, id)} :: Child(p, id) != [] && Child(p, id) != p && Parent(Child(p, id)) == p
    ensures forall p, id, q, k {:trigger Child(p, id), Child(q, k)} :: Child(p, id) == Child(q, k) ==> p == q && id == k
  {
    forall p, id ensures Parent(Child(p, id)) == p { }
    forall p, id: nat, q, k: nat | Child(p, id) == Child(q, k) ensures p == q && id == k {
      assert p == Parent(Child(p, id)) == Parent(Child(q, k)) == q;
      assert Child(p, id)[|p|] == id && Child(q, k)[|q|] == k;
    }
  }

  class Node {
    var t: map<nat, Node>
    var end: bool
    /** The prefix that leads here. */
    ghost const path: Word

    constructor (ghost path: Word)
      ensures t == map[] && !end && this.path == path
    {
      this.path := path;
      t := map[];
      end := false;
    }
  }

  datatype Mask = Mask(allowed: set<nat>, accepting: bool)

  class Automaton {
    var root: Node
    /** The node each prefix leads to, and the words inserted so far. */
    ghost var at: map<Word, Node>
    ghost var words: set<Word>

    /** The edges out of the node of p lead to the nodes of the prefixes one token longer. */
    ghost predicate Shape()
      reads this, at.Values
    {
      && [] in at && at[[]] == root
      && (forall p :: p in at ==> at[p].path == p)
      && (forall p {:trigger Parent(p)} :: p in at && p != [] ==> Parent(p) in at)
      && (forall p, id {:trigger Child(p, id)} :: p in at ==> (id in at[p].t <==> Child(p, id) in at))
      && (forall p, id {:trigger Child(p, id)} :: p in at && id in at[p].t ==> at[p].t[id] == at[Child(p, id)])
    }

    ghost predicate Valid()
      reads this, at.Values
    {
      && Shape()
      && (forall p :: p in at <==> p == [] || Live(words, p))
      && Marked()
    }

    constructor ()
      ensures Valid() && words == {} && fresh(at.Values)
    {
      var node := new Node([]);
      root := node;
      at := map[[] := node];
      words := {};
    }

    /** Walks the encoding of one value, adding the nodes it misses. */
    method Insert(word: Word)
      requires Valid()
      modifies this, at.Values
      ensures Valid() && words == old(words) + {word} && root == old(root)
      ensures fresh(at.Values - old(at.Values))
    {
      forall w | w in words ensures w in at { assert Live(words, w); }
      var node := Walk(word);
      Mark(node, word);
      hide Shape, Marked;
      forall p ensures p in at <==> p == [] || Live(words, p) {
        LiveInsert(old(words), word, p);
      }
    }

    /** Makes a node final. */
    method Mark(node: Node, ghost word: Word)
      requires Shape() && Marked() && word in at && node == at[word]
      modifies this`words, node`end
      ensures Shape() && Marked() && words == old(words) + {word}
    {
      node.end := true;
      words := words + {word};
    }

    lemma RootAt()
      requires Shape()
      ensures [] in at && at[[]] == root
    {
    }

    /** Makes the path of a word and returns the node at its end. */
    method Walk(word: Word) returns (node: Node)
      requires Shape() && Marked() && words <= at.Keys
      modifies this`at, at.Values
      ensures Shape() && Marked() && word in at && node == at[word]
      ensures Grown(old(at), word, |word|)
      ensures fresh(at.Values - old(at.Values))
    {
      hide Shape, Marked, IsPrefix;
      RootAt();
      GrownStart(word);
      node := root;
      var i := 0;
      assert word[..0] == [];
      while i < |word|
        invariant 0 <= i <= |word|
        invariant Shape() && Marked() && words <= at.Keys
        invariant word[..i] in at && node == at[word[..i]]
        invariant Grown(old(at), word, i)
        invariant fresh(at.Values - old(at.Values))
      {
        node := Advance(node, old(at), word, i);
        i := i + 1;
      }
      assert word[..i] == word;
    }

    /** One token of a walk that began with the nodes of start. */
    method Advance(node: Node, ghost start: map<Word, Node>, word: Word, i: nat) returns (next: Node)
      requires i < |word| && Shape() && Marked() && words <= at.Keys
      requires word[..i] in at && node == at[word[..i]] && Grown(start, word, i)
      modifies this`at, node`t
      ensures Shape() && Marked() && words <= at.Keys
      ensures word[..i + 1] in at && next == at[word[..i + 1]] && Grown(start, word, i + 1)
      ensures fresh(at.Values - old(at.Values))
    {
      hide Shape, Marked, IsPrefix;
      ChildOfPrefix(word, i);
      next := Step(node, word[..i], word[i]);
      GrownStep(start, old(at), word, i);
    }

    /** The tokens allowed after a prefix, or nothing when the prefix has left the language. */
    method MaskNext(prefix: Word) returns (mask: Option<Mask>)
      requires Valid() && words != {}
      ensures mask.None? <==> !Live(words, prefix)
      ensures mask.Some? ==> forall id :: id in mask.value.allowed <==> Live(words, Child(prefix, id))
      ensures mask.Some? ==> (mask.value.accepting <==> prefix in words)
    {
      var node := root;
      var i := 0;
      assert prefix[..0] == [];
      while i < |prefix|
        invariant 0 <= i <= |prefix|
        invariant prefix[..i] in at && node == at[prefix[..i]]
      {
        ChildOfPrefix(prefix, i);
        if prefix[i] !in node.t {
          assert prefix[..i + 1] !in at;
          LivePrefix(words, prefix, i + 1);
          return None;
        }
        node := node.t[prefix[i]];
        i := i + 1;
      }
      assert prefix[..i] == prefix;
      if prefix == [] { ghost var w :| w in words; assert [] <= w; }
      ChildInjective();
      assert forall id: nat :: id in node.t <==> Child(prefix, id) in at;
      return Some(Mask(node.t.Keys, node.end));
    }

    /** The nodes are those there were, and one for each prefix walked so far. */
    ghost predicate Grown(before: map<Word, Node>, word: Word, i: nat)
      requires i <= |word|
      reads this
    {
      && (forall p :: p in at <==> p in before || IsPrefix(p, word, i))
    }

    lemma GrownStart(word: Word)
      requires [] in at
      ensures Grown(at, word, 0)
    {
    }

    lemma GrownStep(start: map<Word, Node>, before: map<Word, Node>, word: Word, i: nat)
      requires i < |word|
      requires forall p :: p in before <==> p in start || IsPrefix(p, word, i)
      requires forall p :: p in at <==> p in before || p == word[..i + 1]
      ensures Grown(start, word, i + 1)
    {
      forall p ensures IsPrefix(p, word, i + 1) <==> IsPrefix(p, word, i) || p == word[..i + 1] {
        if p <= word && |p| == i + 1 { assert p == word[..i + 1]; }
      }
    }

    /** A node is final exactly when its prefix is a word. */
    ghost predicate Marked()
      reads this, at.Values
    {
      forall p :: p in at ==> (at[p].end <==> p in words)
    }

    /** Follows the edge for a token, making it first if it is missing. */
    method Step(node: Node, ghost path: Word, id: nat) returns (next: Node)
      requires Shape() && Marked() && path in at && at[path] == node
      requires Child(path, id) in at || Child(path, id) !in words
      modifies this`at, node`t
      ensures Shape() && Marked() && Child(path, id) in at && next == at[Child(path, id)]
      ensures forall p :: p in at <==> p in old(at) || p == Child(path, id)
      ensures fresh(at.Values - old(at.Values))
    {
      if id !in node.t {
        AddChild(node, path, id);
      }
      next := node.t[id];
    }

    /** Hangs a new node under the node of a path. */
    method AddChild(node: Node, ghost path: Word, id: nat)
      requires Shape() && Marked() && path in at && at[path] == node && id !in node.t
      requires Child(path, id) !in words
      modifies this`at, node`t
      ensures Shape() && Marked() && Child(path, id) in at && fresh(at[Child(path, id)])
      ensures at == old(at)[Child(path, id) := at[Child(path, id)]] && id in node.t
    {
      ChildInjective();
      assert Child(path, id) !in at;
      var child := new Node(Child(path, id));
      node.t := node.t[id := child];
      at := at[Child(path, id) := child];
      ghost var grown := Child(path, id);
      forall q, k: nat | q in at
        ensures (k in at[q].t <==> Child(q, k) in at) && (k in at[q].t ==> at[q].t[k] == at[Child(q, k)])
      {
        if q == grown {
          assert Parent(Child(q, k)) == grown;
        } else {
          assert q in old(at) && at[q] == old(at)[q];
          assert k in old(at[q].t) <==> Child(q, k) in old(at);
        }
      }
    }
  }

  ghost predicate IsPrefix(p: Word, word: Word, i: nat)
    requires i <= |word|
  {
    |p| <= i && p <= word
  }

  lemma LiveInsert(words: set<Word>, word: Word, p: Word)
    ensures Live(words + {word}, p) <==> Live(words, p) || p <= word
  {
    if p <= word { assert word in words + {word}; }
    if Live(words, p) {
      var w :| w in words && p <= w;
      assert w in words + {word};
    }
  }

  lemma LivePrefix(words: set<Word>, p: Word, n: nat)
    requires n <= |p|
    ensures Live(words, p) ==> Live(words, p[..n])
  {
    if Live(words, p) {
      var w :| w in words && p <= w;
      assert p[..n] <= w;
    }
  }

  /* ---------- gamma ---------- */

  const ABSTAIN := "__ABSTAIN__"

  /** The encodings of the admissible values and of ABSTAIN. */
  ghost function Encodings(encode: string -> Word, admissible: seq<string>): set<Word> {
    (set v | v in admissible :: encode(v)) + {encode(ABSTAIN)}
  }

  /** Builds the automaton of one constrained slot. */
  method BuildAutomaton(encode: string -> Word, admissible: seq<string>) returns (a: Automaton)
    ensures a.Valid() && fresh(a) && a.words == Encodings(encode, admissible)
  {
    a := new Automaton();
    var i := 0;
    var values := admissible + [ABSTAIN];
    while i < |values|
      invariant 0 <= i <= |values|
      invariant a.Valid() && fresh(a) && fresh(a.at.Values)
      invariant a.words == set v | v in values[..i] :: encode(v)
    {
      assert values[..i + 1] == values[..i] + [values[i]];
      a.Insert(encode(values[i]));
      i := i + 1;
    }
    assert values[..i] == values;
  }

  /* ---------- decoding under the mask ---------- */

  /** Every token was allowed where it was emitted. */
  ghost predicate Masked(words: set<Word>, p: Word) {
    forall i :: 0 <= i < |p| ==> Live(words, Child(p[..i], p[i]))
  }

  /** A sequence can be emitted one allowed token at a time exactly when it is empty or starts an
      encoding: no recombination of admissible values gets through, and nothing that belongs is shut out. */
  lemma MaskedDecodeExact(words: set<Word>, p: Word)
    ensures Masked(words, p) <==> p == [] || Live(words, p)
  {
    if Live(words, p) {
      forall i | 0 <= i < |p| ensures Live(words, Child(p[..i], p[i])) {
        ChildOfPrefix(p, i);
        LivePrefix(words, p, i + 1);
      }
    }
    if Masked(words, p) && p != [] {
      var n := |p| - 1;
      assert Live(words, Child(p[..n], p[n]));
      ChildOfPrefix(p, n);
      assert p[..n + 1] == p;
    }
  }

  /** A masked prefix is never a dead end: some continuation of it, allowed at every step, completes
      an encoding. */
  lemma Completable(words: set<Word>, p: Word)
    requires words != {} && Masked(words, p)
    ensures exists more :: p + more in words && Masked(words, p + more)
  {
    MaskedDecodeExact(words, p);
    if p == [] { var w :| w in words; assert p <= w; }
    var w :| w in words && p <= w;
    assert p + w[|p|..] == w;
    assert w <= w;
    MaskedDecodeExact(words, w);
  }
}
