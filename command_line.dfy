/** Command-line handling for the networking system: find the port override
    and whether to start a server. Godot's String.ToInt is an arbitrary
    function `toInt`, and the lobby's default port a parameter. */
module CommandLine {

  const ArgStartServer: string := "server"
  /** Declared beside the others but never consulted. */
  const ArgBindIp: string := "ip="
  const ArgPortOverride: string := "port="

  /** C#'s String.Split on one separator character: every field, empty ones included. */
  function Split(s: string, sep: char): (fields: seq<string>)
    ensures |fields| >= 1
  {
    if s == [] then [""]
    else
      var rest := Split(s[1..], sep);
      if s[0] == sep then [""] + rest else [[s[0]] + rest[0]] + rest[1..]
  }

  /** The fields put back together with the separator between them. */
  function Join(fields: seq<string>, sep: char): (s: string)
  {
    if |fields| <= 1 then (if fields == [] then "" else fields[0])
    else fields[0] + [sep] + Join(fields[1..], sep)
  }

  lemma JoinCons(head: string, tail: seq<string>, sep: char)
    requires |tail| >= 1
    ensures Join([head] + tail, sep) == head + [sep] + Join(tail, sep)
  {
    assert ([head] + tail)[1..] == tail;
  }

  /** A character put in front of the first field comes out in front of the joined text. */
  lemma JoinPrepend(c: char, fields: seq<string>, sep: char)
    requires |fields| >= 1
    ensures Join([[c] + fields[0]] + fields[1..], sep) == [c] + Join(fields, sep)
  {
    if |fields| > 1 {
      JoinCons([c] + fields[0], fields[1..], sep);
      JoinCons(fields[0], fields[1..], sep);
      assert [fields[0]] + fields[1..] == fields;
    }
  }

  /** Splitting loses nothing: joining the fields with the separator gives the text back. */
  lemma {:induction false} SplitJoin(s: string, sep: char)
    ensures Join(Split(s, sep), sep) == s
  {
    if s != [] {
      SplitJoin(s[1..], sep);
      var rest := Split(s[1..], sep);
      if s[0] == sep {
        JoinCons("", rest, sep);
      } else {
        JoinPrepend(s[0], rest, sep);
      }
      assert s == [s[0]] + s[1..];
    }
  }

  /** No field holds the separator. */
  lemma {:induction false} SplitFieldsFree(s: string, sep: char)
    ensures forall f :: f in Split(s, sep) ==> sep !in f
  {
    if s != [] {
      SplitFieldsFree(s[1..], sep);
    }
  }

  /** The first field is the text up to the first separator, or all of it. */
  lemma {:induction false} FirstField(s: string, sep: char)
    ensures Split(s, sep)[0] <= s && sep !in Split(s, sep)[0]
    ensures |Split(s, sep)[0]| < |s| ==> s[|Split(s, sep)[0]|] == sep
  {
    if s != [] {
      FirstField(s[1..], sep);
    }
  }

  /** Behind a prefix that ends in its only separator, field 1 exists and is
      the first field of what follows the prefix. */
  lemma {:induction false} SplitAfterPrefix(prefix: string, rest: string, sep: char)
    requires |prefix| >= 1 && prefix[|prefix| - 1] == sep
    requires sep !in prefix[..|prefix| - 1]
    ensures |Split(prefix + rest, sep)| >= 2
    ensures Split(prefix + rest, sep)[1] == Split(rest, sep)[0]
  {
    var s := prefix + rest;
    if |prefix| == 1 {
      assert s[1..] == rest;
    } else {
      assert s[1..] == prefix[1..] + rest;
      assert prefix[1..][..|prefix| - 2] == prefix[..|prefix| - 1][1..];
      SplitAfterPrefix(prefix[1..], rest, sep);
    }
  }

  /** An argument carrying the port override always splits into at least two fields. */
  lemma PortArgumentHasValue(arg: string)
    requires ArgPortOverride <= arg
    ensures |Split(arg, '=')| >= 2
    ensures Split(arg, '=')[1] == Split(arg[|ArgPortOverride|..], '=')[0]
  {
    assert arg == ArgPortOverride + arg[|ArgPortOverride|..];
    SplitAfterPrefix(ArgPortOverride, arg[|ArgPortOverride|..], '=');
  }

  /** `i` is the first argument starting with `query`. */
  predicate FirstPrefixed(args: seq<string>, query: string, i: int)
  {
    && 0 <= i < |args|
    && query <= args[i]
    && forall j :: 0 <= j < i ==> !(query <= args[j])
  }

  /** The exact-match search over the arguments. */
  method HasArgument(args: seq<string>, query: string) returns (found: bool)
    ensures found <==> exists i :: 0 <= i < |args| && args[i] == query
  {
    for i := 0 to |args|
      invariant forall j :: 0 <= j < i ==> args[j] != query
    {
      if query == args[i] {
        return true;
      }
    }
    return false;
  }

  /** What ParseArgumentInt reports: whether an argument matched and the value
      written to its out parameter, or the exception that indexing field 1 of
      a one-field split raises. */
  datatype ParseOutcome = Parsed(found: bool, value: int) | IndexOutOfRange

  /** The first argument starting with `query` is split on '=' and field 1
      converted; with no such argument the value is 0. */
  method ParseArgumentInt(args: seq<string>, query: string, toInt: string -> int)
    returns (r: ParseOutcome)
    ensures r.Parsed? && !r.found <==> forall i :: 0 <= i < |args| ==> !(query <= args[i])
    ensures r.Parsed? && !r.found ==> r.value == 0
    ensures r.Parsed? && r.found ==>
              exists i :: && FirstPrefixed(args, query, i) && |Split(args[i], '=')| >= 2
                         && r.value == toInt(Split(args[i], '=')[1])
    ensures r.IndexOutOfRange? ==> exists i :: FirstPrefixed(args, query, i) && |Split(args[i], '=')| < 2
  {
    for i := 0 to |args|
      invariant forall j :: 0 <= j < i ==> !(query <= args[j])
    {
      if query <= args[i] {
        var split := Split(args[i], '=');
        if |split| < 2 {
          assert FirstPrefixed(args, query, i);
          return IndexOutOfRange;
        }
        assert FirstPrefixed(args, query, i);
        return Parsed(true, toInt(split[1]));
      }
    }
    return Parsed(false, 0);
  }

  /** The decision the command line leads to: the port to use and whether to start a server. */
  datatype Launch = Launch(port: int, startServer: bool)

  /** The lobby's default port is read and then overwritten by the override's
      out value, so it is 0 when no override is given; the server is started
      exactly when the token `server` is present. */
  method ProcessCommandLineArguments(args: seq<string>, defaultPort: int, toInt: string -> int)
    returns (launch: Launch)
    ensures launch.startServer <==> exists i :: 0 <= i < |args| && args[i] == ArgStartServer
    ensures (forall i :: 0 <= i < |args| ==> !(ArgPortOverride <= args[i])) ==> launch.port == 0
    ensures forall i :: FirstPrefixed(args, ArgPortOverride, i) ==>
              launch.port == toInt(Split(args[i][|ArgPortOverride|..], '=')[0])
    ensures (forall i :: 0 <= i < |args| ==> ArgPortOverride <= args[i]) ==> !launch.startServer
  {
    var port := defaultPort;
    var parsed := ParseArgumentInt(args, ArgPortOverride, toInt);
    forall i | 0 <= i < |args| && ArgPortOverride <= args[i]
      ensures |Split(args[i], '=')| >= 2
      ensures Split(args[i], '=')[1] == Split(args[i][|ArgPortOverride|..], '=')[0]
    {
      PortArgumentHasValue(args[i]);
    }
    match parsed
    case Parsed(_, value) =>
      port := value;
    var startServer := HasArgument(args, ArgStartServer);
    launch := Launch(port, startServer);
  }
}
