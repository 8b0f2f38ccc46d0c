/** White space and comments stated by derivations. */
module JsonGap {
  import opened JsonGrammar
  import opened JsonText

  /** One white byte, or one comment. */
  datatype Blank = White | Block | Line

  /** Where a blank that begins at `p` ends, or -1 if it does not stand there. */
  function BlankEnd(s: Text, comments: bool, p: nat, b: Blank): (q: int)
    ensures q == -1 || q > p
  {
    match b
    case White => if Space(Peek(s, p)) then p + 1 else -1
    case Block => if comments && Peek(s, p) == SLASH && Peek(s, p + 1) == STAR then BlockEnd(s, p + 2) else -1
    case Line => if comments && Peek(s, p) == SLASH && Peek(s, p + 1) == SLASH then LineEnd(s, p + 2) else -1
  }

  function BlanksEnd(s: Text, comments: bool, p: nat, bs: seq<Blank>): (q: int)
    ensures q == -1 || q >= p
    decreases |bs|
  {
    if bs == [] then p
    else if BlankEnd(s, comments, p, bs[0]) == -1 then -1
    else BlanksEnd(s, comments, BlankEnd(s, comments, p, bs[0]), bs[1..])
  }

  /** Something other than a blank stands at `q`. */
  predicate Meets(s: Text, comments: bool, q: nat) {
    !Space(Peek(s, q)) && !(comments && Peek(s, q) == SLASH)
  }

  lemma {:induction false} SkipsBlank(s: Text, comments: bool, p: nat, b: Blank)
    requires BlankEnd(s, comments, p, b) != -1
    ensures Skip(s, comments, p) == Skip(s, comments, BlankEnd(s, comments, p, b))
  {
  }

  lemma {:induction false} SkipsBlanks(s: Text, comments: bool, p: nat, bs: seq<Blank>, q: nat)
    requires BlanksEnd(s, comments, p, bs) == q && Meets(s, comments, q)
    ensures Skip(s, comments, p) == q
    decreases |bs|
  {
    if bs != [] {
      SkipsBlank(s, comments, p, bs[0]);
      SkipsBlanks(s, comments, BlankEnd(s, comments, p, bs[0]), bs[1..], q);
    }
  }

  lemma {:induction false} Skipped(s: Text, comments: bool, p: nat) returns (bs: seq<Blank>)
    requires Skip(s, comments, p) != -1
    ensures BlanksEnd(s, comments, p, bs) == Skip(s, comments, p) && Meets(s, comments, Skip(s, comments, p))
    decreases if p < |s| then |s| - p else 0
  {
    if Meets(s, comments, p) {
      bs := [];
    } else {
      var b := if Space(Peek(s, p)) then White else if Peek(s, p + 1) == STAR then Block else Line;
      SkipsBlank(s, comments, p, b);
      var rest := Skipped(s, comments, BlankEnd(s, comments, p, b));
      bs := [b] + rest;
      assert bs[1..] == rest;
    }
  }

  /** The scanner gets to `q` if and only if white bytes and, where allowed, comments lead there and nothing of the
      kind stands there. */
  lemma {:induction false} SkipIs(s: Text, comments: bool, p: nat, q: nat)
    ensures Skip(s, comments, p) == q <==> Meets(s, comments, q) && exists bs :: BlanksEnd(s, comments, p, bs) == q
  {
    if Skip(s, comments, p) == q {
      var bs := Skipped(s, comments, p);
    } else if bs :| Meets(s, comments, q) && BlanksEnd(s, comments, p, bs) == q {
      SkipsBlanks(s, comments, p, bs, q);
    }
  }
}
