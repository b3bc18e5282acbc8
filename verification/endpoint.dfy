/**
 Splitting a "host:port" endpoint string into the connection parameters a
 `Tracer` posts to (jsTracerTest.js, `Tracer` constructor).
 */
module Endpoint {
  import opened Wrappers

  /** The port used when an endpoint string names none. */
  const DefaultClientPort: string := "8545"

  /** `s.split(sep)` for a one-character separator: always at least one field. */
  function Split(s: string, sep: char): (r: seq<string>)
    ensures |r| >= 1
    ensures forall i :: 0 <= i < |r| ==> sep !in r[i]
    decreases |s|
  {
    if |s| == 0 then [""]
    else
      var rest := Split(s[1..], sep);
      if s[0] == sep then [""] + rest else [[s[0]] + rest[0]] + rest[1..]
  }

  /** `parts.join(sep)`. */
  function Join(parts: seq<string>, sep: char): string
    requires |parts| >= 1
  {
    if |parts| == 1 then parts[0] else parts[0] + [sep] + Join(parts[1..], sep)
  }

  /** Joining the fields back together gives the original string. */
  lemma {:induction false} JoinSplit(s: string, sep: char)
    ensures Join(Split(s, sep), sep) == s
    decreases |s|
  {
    if |s| > 0 {
      JoinSplit(s[1..], sep);
      var rest := Split(s[1..], sep);
      if s[0] == sep {
        assert ([""] + rest)[1..] == rest;
      } else {
        var r := [[s[0]] + rest[0]] + rest[1..];
        if |rest| == 1 {
          assert r == [[s[0]] + rest[0]];
        } else {
          assert r[1..] == rest[1..];
          assert Join(rest, sep) == rest[0] + [sep] + Join(rest[1..], sep);
        }
      }
    }
  }

  /** Splitting a joined list of separator-free fields gives the fields back. */
  lemma {:induction false} SplitJoin(parts: seq<string>, sep: char)
    requires |parts| >= 1
    requires forall i :: 0 <= i < |parts| ==> sep !in parts[i]
    ensures Split(Join(parts, sep), sep) == parts
    decreases |parts|, |parts[0]|
  {
    if |parts[0]| > 0 {
      var p := parts[0];
      var tail := [p[1..]] + parts[1..];
      assert sep !in p[1..] by {
        assert forall c :: c in p[1..] ==> c in p;
      }
      assert forall i :: 0 <= i < |tail| ==> sep !in tail[i] by {
        forall i | 0 <= i < |tail|
          ensures sep !in tail[i]
        {
          if i > 0 {
            assert tail[i] == parts[i];
          }
        }
      }
      SplitJoin(tail, sep);
      var s := Join(parts, sep);
      assert Join(tail, sep) == s[1..] by {
        if |parts| == 1 {
          assert tail == [p[1..]];
        } else {
          assert tail[1..] == parts[1..];
        }
      }
      assert s[0] == p[0];
      assert p[0] != sep by {
        assert p[0] in p;
      }
      var rest := Split(s[1..], sep);
      assert rest == tail;
      assert [p[0]] + rest[0] == p;
      assert [[s[0]] + rest[0]] + rest[1..] == parts;
    } else if |parts| == 1 {
      assert Join(parts, sep) == "";
    } else {
      var s := Join(parts, sep);
      assert s == [sep] + Join(parts[1..], sep);
      assert s[1..] == Join(parts[1..], sep);
      assert forall i :: 0 <= i < |parts[1..]| ==> sep !in parts[1..][i] by {
        forall i | 0 <= i < |parts[1..]|
          ensures sep !in parts[1..][i]
        {
          assert parts[1..][i] == parts[i + 1];
        }
      }
      SplitJoin(parts[1..], sep);
      assert [""] + parts[1..] == parts;
    }
  }

  /** A string without the separator is one field. */
  lemma {:induction false} SplitNoSeparator(s: string, sep: char)
    requires sep !in s
    ensures Split(s, sep) == [s]
  {
    SplitJoin([s], sep);
  }

  /** The first field is the text before the first separator (all of `s` when there is none). */
  lemma {:induction false} SplitFirstField(s: string, sep: char)
    ensures var f := Split(s, sep)[0];
      && f <= s
      && sep !in f
      && (|f| < |s| <==> sep in s)
      && (|f| < |s| ==> s[|f|] == sep)
    decreases |s|
  {
    if |s| > 0 {
      SplitFirstField(s[1..], sep);
      var rest := Split(s[1..], sep);
      if s[0] != sep {
        var f := [s[0]] + rest[0];
        assert Split(s, sep)[0] == f;
        assert sep in s <==> sep in s[1..] by {
          assert s == [s[0]] + s[1..];
        }
      }
    }
  }

  /** The second field: the text between the first and the second separator. */
  lemma {:induction false} SplitSecondField(s: string, sep: char)
    requires sep in s
    ensures |Split(s, sep)| >= 2
    ensures |Split(s, sep)[0]| < |s|
    ensures Split(s, sep)[1] == Split(s[|Split(s, sep)[0]| + 1..], sep)[0]
    decreases |s|
  {
    SplitFirstField(s, sep);
    var rest := Split(s[1..], sep);
    if s[0] != sep {
      assert sep in s[1..] by {
        assert s == [s[0]] + s[1..];
        assert exists i :: 0 <= i < |s| && s[i] == sep;
        var i :| 0 <= i < |s| && s[i] == sep;
        assert i > 0;
        assert s[1..][i - 1] == sep;
      }
      SplitSecondField(s[1..], sep);
      assert s[|Split(s, sep)[0]| + 1..] == s[1..][|rest[0]| + 1..];
    }
  }

  /** The facts about the first two ':'-fields the constructor relies on. */
  lemma ColonFields(url: string)
    ensures var f := Split(url, ':')[0];
      && f <= url && ':' !in f
      && (|f| < |url| <==> ':' in url)
      && (|f| < |url| ==> url[|f|] == ':')
    ensures ':' in url <==> |Split(url, ':')| >= 2
    ensures ':' in url ==> Split(url, ':')[1] == Split(url[|Split(url, ':')[0]| + 1..], ':')[0]
  {
    SplitFirstField(url, ':');
    if ':' in url {
      SplitSecondField(url, ':');
    } else {
      SplitNoSeparator(url, ':');
    }
  }

  /** Host and port as the `Tracer` constructor stores them; `None` is an `undefined` port. */
  datatype HostPort = HostPort(host: string, port: Option<string>)

  /**
   The constructor's split as it is written: the guard tests `length > 0`,
   which every result of `split` meets, so the default branch is never taken
   and a url without ':' gets an undefined port.
   */
  function ParseEndpointAsWritten(url: string): (r: HostPort)
    ensures r.host == ParseEndpoint(url).host
    ensures r.port.None? <==> ':' !in url
    ensures ':' in url ==> r == ParseEndpoint(url)
  {
    var fields := Split(url, ':');
    ColonFields(url);
    HostPort(fields[0],
             if |fields| > 0 then (if |fields| > 1 then Some(fields[1]) else None)
             else Some(DefaultClientPort))
  }

  /** A url without ':' is handed an undefined port instead of the default one. */
  lemma ColonlessUrlLosesDefaultPort()
    ensures ParseEndpointAsWritten("127.0.0.1").port == None
  {
    SplitNoSeparator("127.0.0.1", ':');
  }

  /**
   The split the constructor evidently intends: the second field when there
   is one, the default port otherwise.
   */
  function ParseEndpoint(url: string): (r: HostPort)
    ensures r.port.Some?
    ensures ':' !in r.host && r.host <= url
    ensures |r.host| < |url| <==> ':' in url
    ensures |r.host| < |url| ==> url[|r.host|] == ':'
    ensures ':' !in url ==> r.port == Some(DefaultClientPort)
    ensures ':' in url ==>
      r.port == Some(Split(url[|r.host| + 1..], ':')[0])
  {
    var fields := Split(url, ':');
    ColonFields(url);
    HostPort(fields[0], if |fields| > 1 then Some(fields[1]) else Some(DefaultClientPort))
  }

  /** The port field is the text after the first ':' up to the next ':' or the end. */
  lemma PortField(url: string)
    ensures var r := ParseEndpoint(url);
      ':' in url ==>
        var after := url[|r.host| + 1..];
        && r.port.value <= after
        && ':' !in r.port.value
        && (|r.port.value| < |after| ==> after[|r.port.value|] == ':')
  {
    var r := ParseEndpoint(url);
    if ':' in url {
      SplitFirstField(url[|r.host| + 1..], ':');
    }
  }
}
