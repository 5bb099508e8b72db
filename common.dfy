/**
 * functions_pair: a configured relation is written as comma-separated function names,
 * with the increment and decrement operators spelled as words.
 */
module Common {
  import opened Exceptions

  /** str.split(","): the pieces between commas, always at least one. */
  function Split(s: string): (r: seq<string>)
    ensures |r| >= 1
    ensures forall i :: 0 <= i < |r| ==> ',' !in r[i]
    decreases |s|
  {
    if s == [] then [""]
    else
      var rest := Split(s[1..]);
      if s[0] == ',' then [""] + rest
      else [[s[0]] + rest[0]] + rest[1..]
  }

  /** ",".join(pieces). */
  function Join(pieces: seq<string>): string
    requires |pieces| >= 1
  {
    if |pieces| == 1 then pieces[0] else pieces[0] + "," + Join(pieces[1..])
  }

  /** Splitting at the commas and joining with commas gives the text back. */
  lemma {:induction false} JoinSplit(s: string)
    ensures Join(Split(s)) == s
    decreases |s|
  {
    if s != [] {
      var rest := Split(s[1..]);
      JoinSplit(s[1..]);
      if s[0] == ',' {
        assert ([""] + rest)[1..] == rest;
        assert s == "" + "," + s[1..];
      } else {
        var r := [[s[0]] + rest[0]] + rest[1..];
        if |rest| == 1 {
          assert s == [s[0]] + s[1..];
        } else {
          assert r[1..] == rest[1..];
          assert Join(rest) == rest[0] + "," + Join(rest[1..]);
          assert s == [s[0]] + (rest[0] + "," + Join(rest[1..]));
        }
      }
    }
  }

  /** The operator names a configuration may use in place of "++" and "--". */
  predicate IsOperatorWord(piece: string)
  {
    piece == "inc_op" || piece == "increment_operator" || piece == "dec_op" || piece == "decrement_operator"
  }

  /** The safe_replaces dictionary. */
  const SafeReplaces: map<string, string> :=
    map["inc_op" := "++", "dec_op" := "--", "increment_operator" := "++", "decrement_operator" := "--"]

  /** The safe_replaces lookup: operator words become the operator, anything else stays. */
  function SafeReplace(piece: string): (r: string)
    ensures piece in SafeReplaces <==> IsOperatorWord(piece)
    ensures !IsOperatorWord(piece) ==> r == piece
    ensures piece == "inc_op" || piece == "increment_operator" ==> r == "++"
    ensures piece == "dec_op" || piece == "decrement_operator" ==> r == "--"
  {
    if piece in SafeReplaces then SafeReplaces[piece] else piece
  }

  /** `not arg`: the argument is None or the empty string. */
  predicate Falsy(arg: Option<string>)
  {
    arg.None? || arg.value == ""
  }

  /**
   * functions_pair: nothing for a missing or empty argument; otherwise one name per
   * comma-separated piece, in order, with operator words replaced.
   */
  method FunctionsPair(arg: Option<string>) returns (r: seq<string>)
    ensures Falsy(arg) ==> r == []
    ensures !Falsy(arg) ==>
              (|r| == |Split(arg.value)| && forall i :: 0 <= i < |r| ==> r[i] == SafeReplace(Split(arg.value)[i]))
  {
    if Falsy(arg) {
      return [];
    }
    var pieces := Split(arg.value);
    r := [];
    var i := 0;
    while i < |pieces|
      invariant 0 <= i <= |pieces|
      invariant |r| == i
      invariant forall k :: 0 <= k < i ==> r[k] == SafeReplace(pieces[k])
    {
      ghost var before := r;
      if pieces[i] in SafeReplaces {
        r := r + [SafeReplaces[pieces[i]]];
      } else {
        r := r + [pieces[i]];
      }
      assert r == before + [SafeReplace(pieces[i])];
      i := i + 1;
    }
  }

  /** The names functions_pair returns for a non-empty argument. */
  function FunctionsPairOf(s: string): (r: seq<string>)
    ensures |r| == |Split(s)|
  {
    seq(|Split(s)|, i requires 0 <= i < |Split(s)| => SafeReplace(Split(s)[i]))
  }

  /** Without operator words the names are the pieces, and joining them gives the argument back. */
  lemma PassThrough(s: string)
    requires forall i :: 0 <= i < |Split(s)| ==> !IsOperatorWord(Split(s)[i])
    ensures FunctionsPairOf(s) == Split(s)
    ensures Join(FunctionsPairOf(s)) == s
  {
    JoinSplit(s);
  }

  /** No returned name is an operator word: applying the replacement again changes nothing. */
  lemma ReplacedOnce(s: string)
    ensures forall i :: 0 <= i < |FunctionsPairOf(s)| ==>
              !IsOperatorWord(FunctionsPairOf(s)[i]) && SafeReplace(FunctionsPairOf(s)[i]) == FunctionsPairOf(s)[i]
  {
  }

  lemma {:induction false} SplitPiece(a: string, t: string)
    requires ',' !in a
    ensures Split(a + "," + t) == [a] + Split(t)
    decreases |a|
  {
    var s := a + "," + t;
    if a == [] {
      assert s[1..] == t;
    } else {
      assert s[1..] == a[1..] + "," + t;
      SplitPiece(a[1..], t);
      assert [a[0]] + a[1..] == a;
    }
  }

  lemma {:induction false} SplitWhole(a: string)
    requires ',' !in a
    ensures Split(a) == [a]
    decreases |a|
  {
    if a != [] {
      SplitWhole(a[1..]);
      assert [a[0]] + a[1..] == a;
    }
  }

  /** Joining comma-free names with commas and splitting again gives the names back. */
  lemma {:induction false} SplitJoin(pieces: seq<string>)
    requires |pieces| >= 1
    requires forall i :: 0 <= i < |pieces| ==> ',' !in pieces[i]
    ensures Split(Join(pieces)) == pieces
    decreases |pieces|
  {
    if |pieces| == 1 {
      SplitWhole(pieces[0]);
    } else {
      SplitPiece(pieces[0], Join(pieces[1..]));
      SplitJoin(pieces[1..]);
    }
  }

  /** A configured two-name relation such as "inc_op,printf" is read as the pair ("++", "printf"). */
  lemma TwoNames(a: string, b: string)
    requires ',' !in a && ',' !in b
    ensures FunctionsPairOf(a + "," + b) == [SafeReplace(a), SafeReplace(b)]
  {
    SplitPiece(a, b);
    SplitWhole(b);
  }
}
