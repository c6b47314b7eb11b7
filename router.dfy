/**
 * The command router of the CLI (src/cli/router.rs): a trie whose keys are
 * single route segments, identified by the bytes `TrieKey::encode_bytes`
 * gives them, and whose values are optional commands. The command type is
 * abstract (`Cmd`); the only thing the router asks of a command is its route.
 */
module Router {
  import opened Wrappers
  import Utf8

  /** One token of a command path: a fixed literal or a named variable. */
  datatype RouteSegment = Literal(text: string) | Variable(text: string)

  /**
   * `encode_bytes`: the bytes of the segment's text, whichever kind it is.
   * The trie identifies keys by these bytes alone.
   */
  function EncodeBytes(segment: RouteSegment): (bs: seq<Utf8.byte>)
    ensures bs == Utf8.Encode(segment.text)
  {
    match segment
    case Literal(s) => Utf8.Encode(s)
    case Variable(s) => Utf8.Encode(s)
  }

  /** A literal and a variable with the same text are the same trie key. */
  lemma LiteralAndVariableCollide(s: string)
    ensures EncodeBytes(Literal(s)) == EncodeBytes(Variable(s))
  {
  }

  /** Two segments are the same trie key exactly when their texts are equal. */
  lemma SameKeyIffSameText(a: RouteSegment, b: RouteSegment)
    ensures EncodeBytes(a) == EncodeBytes(b) <==> a.text == b.text
  {
    if EncodeBytes(a) == EncodeBytes(b) {
      Utf8.EncodeInjective(a.text, b.text);
    }
  }

  /** The trie's contents: from the encoded bytes of a segment to an optional command. */
  type Trie<Cmd> = map<seq<Utf8.byte>, Option<Cmd>>

  /** The keys of a sequence of segments. */
  function KeysOf(segments: seq<RouteSegment>): set<seq<Utf8.byte>>
  {
    set i | 0 <= i < |segments| :: EncodeBytes(segments[i])
  }

  /** The trie after inserting `None` for each of `segments`, in order. */
  function InsertNones<Cmd>(t: Trie<Cmd>, segments: seq<RouteSegment>): Trie<Cmd>
  {
    if segments == [] then t
    else InsertNones(t, segments[..|segments| - 1])[EncodeBytes(segments[|segments| - 1]) := None]
  }

  /**
   * The trie after `add`: `None` for every segment but the last, in order,
   * then the command for the last segment.
   */
  function AfterAdd<Cmd>(t: Trie<Cmd>, route: seq<RouteSegment>, cmd: Cmd): Trie<Cmd>
    requires |route| > 0
  {
    InsertNones(t, route[..|route| - 1])[EncodeBytes(route[|route| - 1]) := Some(cmd)]
  }

  lemma KeysOfSnoc(segments: seq<RouteSegment>, s: RouteSegment)
    ensures KeysOf(segments + [s]) == KeysOf(segments) + {EncodeBytes(s)}
  {
    var whole := segments + [s];
    assert EncodeBytes(whole[|segments|]) in KeysOf(whole);
    forall k | k in KeysOf(segments) ensures k in KeysOf(whole) {
      var i :| 0 <= i < |segments| && k == EncodeBytes(segments[i]);
      assert whole[i] == segments[i];
    }
  }

  /** What the `None` insertions do: they set their keys to `None` and touch nothing else. */
  lemma {:induction false} InsertNonesAt<Cmd>(t: Trie<Cmd>, segments: seq<RouteSegment>, k: seq<Utf8.byte>)
    ensures k in KeysOf(segments) ==> k in InsertNones(t, segments) && InsertNones(t, segments)[k] == None
    ensures k !in KeysOf(segments) ==>
              (k in InsertNones(t, segments) <==> k in t) &&
              (k in t ==> InsertNones(t, segments)[k] == t[k])
  {
    if segments != [] {
      var init, last := segments[..|segments| - 1], segments[|segments| - 1];
      InsertNonesAt(t, init, k);
      KeysOfSnoc(init, last);
      assert init + [last] == segments;
    }
  }

  /** After `add`, the last segment of the route holds the command. */
  lemma AddSetsLast<Cmd>(t: Trie<Cmd>, route: seq<RouteSegment>, cmd: Cmd)
    requires |route| > 0
    ensures EncodeBytes(route[|route| - 1]) in AfterAdd(t, route, cmd)
    ensures AfterAdd(t, route, cmd)[EncodeBytes(route[|route| - 1])] == Some(cmd)
  {
  }

  /**
   * After `add`, every earlier segment whose key differs from the last one's
   * holds `None`, whatever it held before.
   */
  lemma AddClearsPrefix<Cmd>(t: Trie<Cmd>, route: seq<RouteSegment>, cmd: Cmd, i: nat)
    requires i < |route| - 1
    requires EncodeBytes(route[i]) != EncodeBytes(route[|route| - 1])
    ensures EncodeBytes(route[i]) in AfterAdd(t, route, cmd)
    ensures AfterAdd(t, route, cmd)[EncodeBytes(route[i])] == None
  {
    var init := route[..|route| - 1];
    assert init[i] == route[i];
    InsertNonesAt(t, init, EncodeBytes(route[i]));
  }

  /**
   * A segment that occurs both earlier in the route and as its last segment
   * ends up holding the command: the insertions run in order and the last one wins.
   */
  lemma AddRepeatedLastWins<Cmd>(t: Trie<Cmd>, route: seq<RouteSegment>, cmd: Cmd, i: nat)
    requires i < |route| - 1
    requires route[i] == route[|route| - 1]
    ensures AfterAdd(t, route, cmd)[EncodeBytes(route[i])] == Some(cmd)
  {
  }

  /**
   * After `add`, keys outside the route are as they were, and the key set
   * grew by exactly the route's keys.
   */
  lemma AddFrame<Cmd>(t: Trie<Cmd>, route: seq<RouteSegment>, cmd: Cmd)
    requires |route| > 0
    ensures AfterAdd(t, route, cmd).Keys == t.Keys + KeysOf(route)
    ensures forall k :: k in t && k !in KeysOf(route) ==> AfterAdd(t, route, cmd)[k] == t[k]
  {
    var init, last := route[..|route| - 1], route[|route| - 1];
    KeysOfSnoc(init, last);
    assert init + [last] == route;
    forall k ensures k in AfterAdd(t, route, cmd) <==> k in t || k in KeysOf(route) {
      InsertNonesAt(t, init, k);
    }
    forall k | k in t && k !in KeysOf(route) ensures AfterAdd(t, route, cmd)[k] == t[k] {
      InsertNonesAt(t, init, k);
    }
  }

  /**
   * Because keys are single segments compared by their bytes, adding a route
   * that ends in `Variable(s)` replaces whatever a route ending in
   * `Literal(s)` had installed, and the other way round. This is a release
   * build's behaviour: a debug build of `radix_trie` checks that distinct keys
   * have distinct bytes and panics here instead.
   */
  lemma AddOverwritesSameText<Cmd>(t: Trie<Cmd>, route: seq<RouteSegment>, cmd: Cmd, other: RouteSegment)
    requires |route| > 0
    requires other.text == route[|route| - 1].text
    ensures AfterAdd(t, route, cmd)[EncodeBytes(other)] == Some(cmd)
  {
  }

  /** `Router`: the trie the commands are registered in. */
  class Router<Cmd> {
    var trie: Trie<Cmd>

    /** `Router::new`: an empty trie. */
    constructor ()
      ensures trie == map[]
    {
      trie := map[];
    }

    /**
     * `Router::add`: registers `cmd` under the route `routeOf(cmd)`
     * (`Command::route`). The source computes `len - 1` on a `usize`: a debug
     * build panics on that subtraction, and a release build wraps it to
     * `usize::MAX` and panics on `get(0).unwrap()` in the loop. Either way an
     * empty route panics before the last segment is inserted.
     */
    method Add(cmd: Cmd, routeOf: Cmd -> seq<RouteSegment>)
      requires |routeOf(cmd)| > 0
      modifies this
      ensures trie == AfterAdd(old(trie), routeOf(cmd), cmd)
      ensures trie[EncodeBytes(routeOf(cmd)[|routeOf(cmd)| - 1])] == Some(cmd)
      ensures trie.Keys == old(trie).Keys + KeysOf(routeOf(cmd))
    {
      var routeSegments := routeOf(cmd);
      var len := |routeSegments|;
      for i := 0 to len - 1
        invariant trie == InsertNones(old(trie), routeSegments[..i])
      {
        var segment := routeSegments[i];
        assert routeSegments[..i + 1] == routeSegments[..i] + [segment];
        trie := trie[EncodeBytes(segment) := None];
      }
      var lastSegment := routeSegments[len - 1];
      trie := trie[EncodeBytes(lastSegment) := Some(cmd)];
      AddFrame(old(trie), routeSegments, cmd);
    }
  }
}
