/** What a path text means: links stand for their targets, `..` for the parent, and the rest is looked up. */
module PathLaws {
  import opened Base
  import opened Pieces
  import opened ContainedWalk

  /** A text in the place of one name of a path. */
  function Spliced(names: seq<string>, text: string, rest: seq<string>): string {
    var head := if names == [] then text else Join(names) + (['/'] + text);
    if rest == [] then head else head + (['/'] + Join(rest))
  }

  lemma SplicedSplit(names: seq<string>, text: string, rest: seq<string>)
    requires NoSlash(names) && NoSlash(rest)
    ensures Split(Spliced(names, text, rest)) == names + (Split(text) + rest)
  {
    hide Cut, Glue;
    var head := if names == [] then text else Join(names) + (['/'] + text);
    if names != [] {
      CutBetween(Join(names), text, '/');
      SplitJoin(names);
    }
    assert Split(head) == names + Split(text);
    if rest != [] {
      CutBetween(head, Join(rest), '/');
      SplitJoin(rest);
    }
    Assoc(names, Split(text), rest);
  }

  /** A name without a slash is its own only piece. */
  lemma NamePiece(name: string)
    requires NoSlash([name])
    ensures Split(name) == [name]
  {
    assert [name][0] == name;
    assert Glue([name], '/') == name;
    CutGlue([name], '/');
  }

  // ---------------------------------------------------------------- budgets

  /** The walk gave up for its budget of links or of steps. */
  predicate Spent(r: Result) { r == Err(TooLong) || r == Err(TooManyLinks) }

  /** A walk that did not exhaust its budgets gives the same answer from any larger ones. */
  lemma {:induction false} Budgets(w: World, names: seq<string>, pending: seq<string>, hops: nat, steps: nat, more: nat, later: nat)
    requires hops <= more && steps <= later && !Spent(Walk(w, names, pending, more, later))
    ensures Walk(w, names, pending, hops, steps) == Walk(w, names, pending, more, later)
    decreases STEP_LIMIT - later
  {
    hide Lookup, Split;
    if pending != [] {
      var part, rest := pending[0], pending[1..];
      if part == "" || part == "." {
        Budgets(w, names, rest, hops, steps + 1, more, later + 1);
      } else if part == ".." {
        if names != [] {
          Budgets(w, names[..|names| - 1], rest, hops, steps + 1, more, later + 1);
        }
      } else {
        match Lookup(w.fs, w.root + (names + [part])) {
          case Some(Symlink(Relative(text))) =>
            Budgets(w, names, Split(text) + rest, hops + 1, steps + 1, more + 1, later + 1);
          case Some(Symlink(Absolute(Some(text)))) =>
            Budgets(w, [], Split(text) + rest, hops + 1, steps + 1, more + 1, later + 1);
          case Some(Dir(_)) =>
            if rest != [] {
              Budgets(w, names + [part], rest, hops, steps + 1, more, later + 1);
            }
          case _ =>
        }
      }
    }
  }

  /** Real directories are walked one by one. */
  lemma {:induction false} Reaches(w: World, names: seq<string>, pending: seq<string>, k: nat)
    requires Real(w, names) && pending != [] && k <= |names| && k <= STEP_LIMIT
    ensures Walk(w, names[..k], names[k..] + pending, 0, k) ==
            if |names| <= STEP_LIMIT then Walk(w, names, pending, 0, |names|) else Err(TooLong)
    decreases |names| - k
  {
    hide Lookup;
    if k == |names| {
      assert names[..k] == names && names[k..] + pending == pending;
    } else {
      var all := names[k..] + pending;
      assert RealAt(w, names, k);
      assert all[0] == names[k] && all[1..] == names[k + 1..] + pending;
      assert names[..k] + [names[k]] == names[..k + 1];
      if k < STEP_LIMIT {
        Reaches(w, names, pending, k + 1);
      }
    }
  }

  /** A path through real directories resolves as what follows them, from the last of them. */
  lemma FromReal(w: World, names: seq<string>, text: string, rest: seq<string>)
    requires Real(w, names) && NoSlash(names) && NoSlash(rest) && !Malformed(Relative(Spliced(names, text, rest)))
    ensures Resolve(w, Relative(Spliced(names, text, rest))) ==
            if |names| <= STEP_LIMIT then Walk(w, names, Split(text) + rest, 0, |names|) else Err(TooLong)
  {
    hide Lookup, Real, Walk, Split, Spliced;
    SplicedSplit(names, text, rest);
    Reaches(w, names, Split(text) + rest, 0);
    assert names[..0] == [] && names[0..] == names;
  }

  /** One plain name after real directories. */
  lemma NameNext(w: World, names: seq<string>, part: string, rest: seq<string>)
    requires Real(w, names) && NoSlash(names) && NoSlash(rest) && NoSlash([part])
    requires |names| < STEP_LIMIT && !Malformed(Relative(Spliced(names, part, rest)))
    ensures Resolve(w, Relative(Spliced(names, part, rest))) == Walk(w, names, [part] + rest, 0, |names|)
    ensures ([part] + rest)[0] == part && ([part] + rest)[1..] == rest
  {
    hide Lookup, Real, Walk, Split, Spliced;
    FromReal(w, names, part, rest);
    NamePiece(part);
  }

  // ---------------------------------------------------------------- the laws

  /** A relative link: `names/link/rest` is `names/text/rest`, at the price of one link and one step. */
  lemma RelativeLink(w: World, names: seq<string>, link: string, text: string, rest: seq<string>)
    requires Real(w, names) && Plain(link) && NoSlash(names) && NoSlash([link]) && NoSlash(rest)
    requires Lookup(w.fs, w.root + (names + [link])) == Some(Symlink(Relative(text)))
    requires !Malformed(Relative(Spliced(names, link, rest))) && !Malformed(Relative(Spliced(names, text, rest)))
    ensures var via, direct := Resolve(w, Relative(Spliced(names, link, rest))), Resolve(w, Relative(Spliced(names, text, rest)));
            && (!Spent(via) ==> via == direct)
            && (|names| < STEP_LIMIT ==>
                  && direct == Walk(w, names, Split(text) + rest, 0, |names|)
                  && via == if w.hopLimit == 0 then Err(TooManyLinks) else Walk(w, names, Split(text) + rest, 1, |names| + 1))
  {
    hide Lookup, Real, Split, Spliced;
    FromReal(w, names, link, rest);
    FromReal(w, names, text, rest);
    if |names| < STEP_LIMIT {
      NameNext(w, names, link, rest);
      if w.hopLimit > 0 && !Spent(Walk(w, names, Split(text) + rest, 1, |names| + 1)) {
        Budgets(w, names, Split(text) + rest, 0, |names|, 1, |names| + 1);
      }
    } else {
      NamePiece(link);
    }
  }

  /** An absolute link below the root: `names/link/rest` is `text/rest` from the root, at the price of one link and the
      steps to it. */
  lemma AbsoluteLink(w: World, names: seq<string>, link: string, text: string, rest: seq<string>)
    requires Real(w, names) && Plain(link) && NoSlash(names) && NoSlash([link]) && NoSlash(rest)
    requires Lookup(w.fs, w.root + (names + [link])) == Some(Symlink(Absolute(Some(text))))
    requires !Malformed(Relative(Spliced(names, link, rest))) && !Malformed(Absolute(Some(Spliced([], text, rest))))
    ensures var via, direct := Resolve(w, Relative(Spliced(names, link, rest))), Resolve(w, Absolute(Some(Spliced([], text, rest))));
            && (!Spent(via) ==> via == direct)
            && direct == Walk(w, [], Split(text) + rest, 0, 0)
            && (|names| < STEP_LIMIT ==>
                  via == if w.hopLimit == 0 then Err(TooManyLinks) else Walk(w, [], Split(text) + rest, 1, |names| + 1))
  {
    hide Lookup, Real, Split, Spliced;
    FromRoot(w, text, rest);
    if |names| < STEP_LIMIT {
      NameNext(w, names, link, rest);
      if w.hopLimit > 0 && !Spent(Walk(w, [], Split(text) + rest, 1, |names| + 1)) {
        Budgets(w, [], Split(text) + rest, 0, 0, 1, |names| + 1);
      }
    } else {
      FromReal(w, names, link, rest);
      NamePiece(link);
    }
  }

  lemma FromRoot(w: World, text: string, rest: seq<string>)
    requires NoSlash(rest) && !Malformed(Absolute(Some(Spliced([], text, rest))))
    ensures Resolve(w, Absolute(Some(Spliced([], text, rest)))) == Walk(w, [], Split(text) + rest, 0, 0)
  {
    hide Lookup, Walk, Split, Spliced;
    SplicedSplit([], text, rest);
    assert [] + (Split(text) + rest) == Split(text) + rest;
  }

  /** An absolute link that does not lie below the root is refused, and so is such a path itself. */
  lemma OutsideLink(w: World, names: seq<string>, link: string, rest: seq<string>)
    requires Real(w, names) && Plain(link) && NoSlash(names) && NoSlash([link]) && NoSlash(rest)
    requires Lookup(w.fs, w.root + (names + [link])) == Some(Symlink(Absolute(None)))
    requires |names| < STEP_LIMIT && !Malformed(Relative(Spliced(names, link, rest)))
    ensures Resolve(w, Relative(Spliced(names, link, rest))) == if w.hopLimit == 0 then Err(TooManyLinks) else Err(Outside)
    ensures Resolve(w, Absolute(None)) == Err(Outside)
  {
    hide Lookup, Real, Split, Spliced;
    NameNext(w, names, link, rest);
  }

  /** A directory and back: `names/dir/../rest` is `names/rest`, at the price of two steps. */
  lemma AndBack(w: World, names: seq<string>, dir: string, rest: seq<string>)
    requires Real(w, names + [dir]) && NoSlash(names + [dir]) && NoSlash(rest) && rest != []
    requires !Malformed(Relative(Join(names + ([dir, ".."] + rest)))) && !Malformed(Relative(Join(names + rest)))
    ensures var via, direct := Resolve(w, Relative(Join(names + ([dir, ".."] + rest)))), Resolve(w, Relative(Join(names + rest)));
            && (!Spent(via) ==> via == direct)
            && (|names| + 1 < STEP_LIMIT ==>
                  direct == Walk(w, names, rest, 0, |names|) && via == Walk(w, names, rest, 0, |names| + 2))
  {
    hide Lookup, Walk, Join;
    var down := names + [dir];
    var up := [".."] + rest;
    assert names + ([dir, ".."] + rest) == down + up;
    RealPop(w, down);
    assert down[..|down| - 1] == names;
    hide Real;
    Straight(w, down, up);
    Straight(w, names, rest);
    if |names| + 1 < STEP_LIMIT {
      UpOne(w, names, dir, rest);
      if !Spent(Walk(w, names, rest, 0, |names| + 2)) {
        Budgets(w, names, rest, 0, |names|, 0, |names| + 2);
      }
    } else if |names| + 1 == STEP_LIMIT {
      NoStep(w, down, up);
    }
  }

  lemma Straight(w: World, names: seq<string>, rest: seq<string>)
    requires Real(w, names) && NoSlash(names) && NoSlash(rest) && rest != [] && !Malformed(Relative(Join(names + rest)))
    ensures Resolve(w, Relative(Join(names + rest))) ==
            if |names| <= STEP_LIMIT then Walk(w, names, rest, 0, |names|) else Err(TooLong)
  {
    hide Lookup, Real, Walk;
    SlashJoin(names, rest);
    SplitJoin(names + rest);
    Reaches(w, names, rest, 0);
    assert names[..0] == [] && names[0..] == names;
  }

  lemma UpOne(w: World, names: seq<string>, dir: string, rest: seq<string>)
    requires |names| + 1 < STEP_LIMIT
    ensures Walk(w, names + [dir], [".."] + rest, 0, |names| + 1) == Walk(w, names, rest, 0, |names| + 2)
  {
    assert ([".."] + rest)[1..] == rest;
    assert (names + [dir])[..|names|] == names;
  }

  lemma NoStep(w: World, names: seq<string>, pending: seq<string>)
    requires |names| == STEP_LIMIT && pending != []
    ensures Walk(w, names, pending, 0, |names|) == Err(TooLong)
  {
  }

  /** Where a path ends: what it answers when, after real directories, the next name is no link. */
  lemma PathEnds(w: World, names: seq<string>, part: string, rest: seq<string>)
    requires Real(w, names) && Plain(part) && NoSlash(names) && NoSlash([part]) && NoSlash(rest)
    requires |names| < STEP_LIMIT && !Malformed(Relative(Spliced(names, part, rest)))
    ensures var r, node := Resolve(w, Relative(Spliced(names, part, rest))), Lookup(w.fs, w.root + (names + [part]));
            && (node.None? ==> r == Err(NotFound))
            && (node.Some? && node.value.File? && rest != [] ==> r == Err(NotDirectory))
            && (node.Some? && node.value.File? && rest == [] ==>
                  r == if |node.value.bytes| > w.limit then Err(TooLarge) else Ok(names + [part], node.value.bytes))
            && (node.Some? && node.value.Dir? && rest == [] ==> r == Err(NotRegular))
  {
    hide Lookup, Real, Split, Spliced;
    NameNext(w, names, part, rest);
  }

  /** Climbing out of the root is refused, whatever follows. */
  lemma NoClimbing(w: World, rest: seq<string>)
    requires NoSlash(rest) && !Malformed(Relative(Spliced([], "..", rest)))
    ensures Resolve(w, Relative(Spliced([], "..", rest))) == Err(Outside)
  {
    hide Lookup, Split, Spliced;
    RealNone(w);
    assert forall i :: 0 <= i < |".."| ==> ".."[i] != '/';
    NameNext(w, [], "..", rest);
  }

  /** An empty piece or a single dot stands for nothing. */
  lemma StandsForNothing(w: World, names: seq<string>, part: string, rest: seq<string>)
    requires Real(w, names) && NoSlash(names) && NoSlash(rest) && rest != [] && (part == "" || part == ".")
    requires !Malformed(Relative(Spliced(names, part, rest))) && !Malformed(Relative(Join(names + rest)))
    ensures var via, direct := Resolve(w, Relative(Spliced(names, part, rest))), Resolve(w, Relative(Join(names + rest)));
            && (!Spent(via) ==> via == direct)
            && (|names| < STEP_LIMIT ==> via == Walk(w, names, rest, 0, |names| + 1))
  {
    hide Lookup, Real, Split, Spliced, Join;
    FromReal(w, names, part, rest);
    Straight(w, names, rest);
    if |names| < STEP_LIMIT {
      NameNext(w, names, part, rest);
      if !Spent(Walk(w, names, rest, 0, |names| + 1)) {
        Budgets(w, names, rest, 0, |names|, 0, |names| + 1);
      }
    } else {
      NamePiece(part);
    }
  }
}
