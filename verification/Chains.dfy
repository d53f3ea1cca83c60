/** What an infix grammar reads before it groups anything: operands with operators between them. */
module Chains {
  datatype Link<O, V> = Link(op: O, item: V)

  datatype Chain<O, V> = Chain(first: V, rest: seq<Link<O, V>>)

  /** One chain followed by another. */
  function Glue<O, V>(left: Chain<O, V>, op: O, right: Chain<O, V>): Chain<O, V> {
    Chain(left.first, left.rest + [Link(op, right.first)] + right.rest)
  }

  /* ---------- text, each operator one token ---------- */

  function Text<O, V, T>(c: Chain<O, V>, word: O -> T, item: V -> seq<T>): seq<T> {
    item(c.first) + LinksText(c.rest, word, item)
  }

  function LinksText<O, V, T>(links: seq<Link<O, V>>, word: O -> T, item: V -> seq<T>): seq<T> {
    if links == [] then [] else [word(links[0].op)] + item(links[0].item) + LinksText(links[1..], word, item)
  }

  lemma {:induction false} LinksTextAppend<O, V, T>(
    a: seq<Link<O, V>>, b: seq<Link<O, V>>, word: O -> T, item: V -> seq<T>)
    ensures LinksText(a + b, word, item) == LinksText(a, word, item) + LinksText(b, word, item)
  {
    if a == [] {
      assert a + b == b;
    } else {
      LinksTextAppend(a[1..], b, word, item);
      assert (a + b)[0] == a[0] && (a + b)[1..] == a[1..] + b;
    }
  }

  /** The text of two chains glued together. */
  lemma TextGlue<O, V, T>(left: Chain<O, V>, op: O, right: Chain<O, V>, word: O -> T, item: V -> seq<T>)
    ensures Text(Glue(left, op, right), word, item)
      == Text(left, word, item) + [word(op)] + Text(right, word, item)
  {
    var link := Link(op, right.first);
    LinksTextAppend(left.rest + [link], right.rest, word, item);
    LinksTextAppend(left.rest, [link], word, item);
    assert [link][1..] == [] && LinksText([link], word, item) == [word(op)] + item(right.first);
  }
}
