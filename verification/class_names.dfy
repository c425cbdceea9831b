/**
 * The navigation bar's local `cn` helper: `inputs.filter(Boolean).join(' ')`.
 * An argument is a class string, a boolean (from `isActive && "…"`), or
 * missing (an `undefined` `className` prop).
 */
module ClassNames {

  datatype ClassArg = Text(s: string) | Flag(b: bool) | Missing

  /** JavaScript truthiness of one argument: non-empty strings and `true`. */
  predicate Truthy(a: ClassArg)
  {
    match a
    case Text(s) => s != ""
    case Flag(b) => b
    case Missing => false
  }

  /** How `join` prints a kept argument (`true` prints as the word "true"). */
  function Word(a: ClassArg): (w: string)
    requires Truthy(a)
    ensures w != ""
  {
    match a
    case Text(s) => s
    case Flag(_) => "true"
  }

  /** The number of truthy arguments. */
  function TruthyCount(args: seq<ClassArg>): nat
  {
    if args == [] then 0 else (if Truthy(args[0]) then 1 else 0) + TruthyCount(args[1..])
  }

  /** What `filter` keeps of one argument, printed. */
  function KeptHead(x: ClassArg): seq<string>
  {
    if Truthy(x) then [Word(x)] else []
  }

  /** `inputs.filter(Boolean)`, printed, one argument at a time. */
  function Filter(args: seq<ClassArg>): seq<string>
  {
    if args == [] then [] else KeptHead(args[0]) + Filter(args[1..])
  }

  /**
   * `inputs.filter(Boolean)`, printed: exactly the truthy arguments, in
   * order. Truthy argument `i` lands at the position given by the number of
   * truthy arguments before it, and there are no other words.
   */
  function Kept(args: seq<ClassArg>): (ws: seq<string>)
    ensures |ws| == TruthyCount(args) <= |args|
    ensures forall i {:trigger TruthyCount(args[..i])} :: 0 <= i < |args| && Truthy(args[i]) ==>
      TruthyCount(args[..i]) < |ws| && ws[TruthyCount(args[..i])] == Word(args[i])
    ensures forall i :: 0 <= i < |ws| ==> ws[i] != ""
    ensures ws == [] <==> forall i :: 0 <= i < |args| ==> !Truthy(args[i])
  {
    FilterSpec(args);
    Filter(args)
  }

  lemma {:induction false} FilterSpec(args: seq<ClassArg>)
    ensures |Filter(args)| == TruthyCount(args) <= |args|
    ensures forall i {:trigger TruthyCount(args[..i])} :: 0 <= i < |args| && Truthy(args[i]) ==>
      TruthyCount(args[..i]) < |Filter(args)| && Filter(args)[TruthyCount(args[..i])] == Word(args[i])
    ensures forall i :: 0 <= i < |Filter(args)| ==> Filter(args)[i] != ""
    ensures Filter(args) == [] <==> forall i :: 0 <= i < |args| ==> !Truthy(args[i])
  {
    if args != [] {
      FilterSpec(args[1..]);
      var ws := Filter(args);
      assert args[..0] == [];
      forall i | 1 <= i < |args| && Truthy(args[i])
        ensures TruthyCount(args[..i]) < |ws| && ws[TruthyCount(args[..i])] == Word(args[i])
      {
        assert args[..i][1..] == args[1..][..i - 1];
        assert args[1..][i - 1] == args[i];
      }
      if !Truthy(args[0]) && Filter(args[1..]) != [] {
        var j :| 0 <= j < |args[1..]| && Truthy(args[1..][j]);
        assert Truthy(args[j + 1]);
      }
    }
  }

  /** Total number of characters in `parts`. */
  function TotalLength(parts: seq<string>): nat
  {
    if parts == [] then 0 else |parts[0]| + TotalLength(parts[1..])
  }

  /** `parts.join(' ')`: the parts' characters plus one separator between each neighbouring pair. */
  function Join(parts: seq<string>): (r: string)
    ensures parts == [] ==> r == ""
    ensures parts != [] ==> |r| == TotalLength(parts) + |parts| - 1
    ensures parts != [] ==> r[..|parts[0]|] == parts[0]
  {
    if parts == [] then ""
    else if |parts| == 1 then parts[0]
    else parts[0] + " " + Join(parts[1..])
  }

  /** The class list: the truthy arguments joined by single spaces. */
  function Cn(args: seq<ClassArg>): (r: string)
    ensures r == "" <==> forall i :: 0 <= i < |args| ==> !Truthy(args[i])
  {
    JoinEmpty(Kept(args));
    Join(Kept(args))
  }

  /** A join of non-empty parts is empty exactly when there are no parts. */
  lemma {:induction false} JoinEmpty(parts: seq<string>)
    requires forall i :: 0 <= i < |parts| ==> parts[i] != ""
    ensures Join(parts) == "" <==> parts == []
  {
    if |parts| > 1 {
      assert |Join(parts)| >= |parts[0]| + 1;
    }
  }

  /** Filtering distributes over concatenation: arguments keep their order. */
  lemma KeptAppend(a: seq<ClassArg>, b: seq<ClassArg>)
    ensures Kept(a + b) == Kept(a) + Kept(b)
  {
    FilterAppend(a, b);
  }

  lemma {:induction false} FilterAppend(a: seq<ClassArg>, b: seq<ClassArg>)
    ensures Filter(a + b) == Filter(a) + Filter(b)
    decreases |a|
  {
    if a == [] {
      assert a + b == b;
    } else {
      assert (a + b)[0] == a[0];
      assert (a + b)[1..] == a[1..] + b;
      FilterAppend(a[1..], b);
    }
  }

  /** Joining two lists puts exactly one space between them when both are non-empty. */
  lemma {:induction false} JoinAppend(p: seq<string>, q: seq<string>)
    ensures Join(p + q) == if p == [] then Join(q) else if q == [] then Join(p) else Join(p) + " " + Join(q)
    decreases |p|
  {
    if p == [] {
      assert p + q == q;
    } else if q == [] {
      assert p + q == p;
    } else if |p| == 1 {
      assert (p + q)[1..] == q;
    } else {
      assert (p + q)[1..] == p[1..] + q;
      JoinAppend(p[1..], q);
    }
  }

  /** `cn(...a, ...b)` is `cn(...a)` and `cn(...b)` separated by one space when both are non-empty. */
  lemma CnAppend(a: seq<ClassArg>, b: seq<ClassArg>)
    ensures Cn(a + b) == if Cn(a) == "" then Cn(b) else if Cn(b) == "" then Cn(a) else Cn(a) + " " + Cn(b)
  {
    KeptAppend(a, b);
    JoinEmpty(Kept(a));
    JoinEmpty(Kept(b));
    JoinAppend(Kept(a), Kept(b));
  }

  /** `s.split(' ')`: the maximal space-free pieces of `s`, the empty ones included. */
  function Split(s: string): (parts: seq<string>)
    ensures |parts| > 0
    decreases |s|
  {
    if s == [] then [""]
    else if s[0] == ' ' then [""] + Split(s[1..])
    else
      var rest := Split(s[1..]);
      [[s[0]] + rest[0]] + rest[1..]
  }

  predicate SpaceFree(w: string)
  {
    forall i :: 0 <= i < |w| ==> w[i] != ' '
  }

  /** A space-free word before a space splits off as one piece. */
  lemma {:induction false} SplitWord(w: string, t: string)
    requires SpaceFree(w)
    ensures Split(w) == [w]
    ensures Split(w + " " + t) == [w] + Split(t)
    decreases |w|
  {
    if w == [] {
      assert w + " " + t == [' '] + t;
      assert (w + " " + t)[1..] == t;
    } else {
      assert (w + " " + t)[1..] == w[1..] + " " + t;
      SplitWord(w[1..], t);
      assert [w[0]] + w[1..] == w;
    }
  }

  /** Splitting a join of non-empty space-free words on spaces gives the words back. */
  lemma {:induction false} SplitJoin(parts: seq<string>)
    requires parts != []
    requires forall i :: 0 <= i < |parts| ==> SpaceFree(parts[i])
    ensures Split(Join(parts)) == parts
    decreases |parts|
  {
    SplitWord(parts[0], "");
    if |parts| > 1 {
      SplitWord(parts[0], Join(parts[1..]));
      SplitJoin(parts[1..]);
    }
  }

  /** When no kept argument contains a space, the class list splits back into exactly those arguments, in order. */
  lemma CnSplit(args: seq<ClassArg>)
    requires Kept(args) != []
    requires forall i :: 0 <= i < |Kept(args)| ==> SpaceFree(Kept(args)[i])
    ensures Split(Cn(args)) == Kept(args)
  {
    SplitJoin(Kept(args));
  }
}
