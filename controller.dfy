/** `getAuthToken` of internal/controller/http/controller.go: the splitting of
    an `Authorization` header into scheme and token. */
module HttpController {
  import opened Wrappers
  import opened Errs

  /** The number of times `c` occurs in `s`. */
  function Count(s: string, c: char): nat
    decreases |s|
  {
    if s == [] then 0 else (if s[0] == c then 1 else 0) + Count(s[1..], c)
  }

  /** `strings.Split` with a one-character separator: the pieces between the
      separators, so there is one piece more than there are separators, and an
      empty string gives one empty piece. */
  function Split(s: string, sep: char): (pieces: seq<string>)
    ensures |pieces| >= 1
    decreases |s|
  {
    if s == [] then [""]
    else
      var rest := Split(s[1..], sep);
      if s[0] == sep then [""] + rest
      else [[s[0]] + rest[0]] + rest[1..]
  }

  /** `strings.Join`: the pieces with the separator between each two. */
  function Join(pieces: seq<string>, sep: char): string
    decreases |pieces|
  {
    if pieces == [] then ""
    else if |pieces| == 1 then pieces[0]
    else pieces[0] + [sep] + Join(pieces[1..], sep)
  }

  const ErrEmptyAuthToken: Error := Plain("empty auth token")
  const ErrMalformedAuthToken: Error := Plain("malformed auth token")

  /** `getAuthToken`: an empty header is an error; otherwise the header must
      split on " " into exactly two pieces, and the second is the token.  The
      first piece is not looked at. */
  function GetAuthToken(raw: string): Result<string, Error>
  {
    if raw == "" then Failure(ErrEmptyAuthToken)
    else
      var pieces := Split(raw, ' ');
      if |pieces| != 2 then Failure(ErrMalformedAuthToken)
      else Success(pieces[1])
  }

  // ---------------------------------------------------------------- splitting

  /** There is one piece more than there are separators. */
  lemma {:induction false} SplitCount(s: string, sep: char)
    ensures |Split(s, sep)| == Count(s, sep) + 1
    decreases |s|
  {
    if s != [] {
      SplitCount(s[1..], sep);
    }
  }

  /** No piece holds the separator. */
  lemma {:induction false} SplitPiecesFree(s: string, sep: char)
    ensures forall i :: 0 <= i < |Split(s, sep)| ==> sep !in Split(s, sep)[i]
    decreases |s|
  {
    if s != [] {
      var rest := Split(s[1..], sep);
      SplitPiecesFree(s[1..], sep);
      if s[0] != sep {
        var p := Split(s, sep);
        assert p == [[s[0]] + rest[0]] + rest[1..];
        forall i | 0 <= i < |p| ensures sep !in p[i] {
          if i > 0 {
            assert p[i] == rest[i];
          }
        }
      }
    }
  }

  /** Joining the pieces with the separator gives back the string. */
  lemma {:induction false} SplitThenJoin(s: string, sep: char)
    ensures Join(Split(s, sep), sep) == s
    decreases |s|
  {
    if s != [] {
      var rest := Split(s[1..], sep);
      SplitThenJoin(s[1..], sep);
      if s[0] == sep {
        assert Split(s, sep) == [""] + rest;
        JoinEmptyHead(rest, sep);
      } else {
        assert Split(s, sep) == [[s[0]] + rest[0]] + rest[1..];
        JoinExtendHead(s[0], rest, sep);
      }
      assert s == [s[0]] + s[1..];
    }
  }

  /** An empty first piece contributes only its separator. */
  lemma JoinEmptyHead(pieces: seq<string>, sep: char)
    requires |pieces| >= 1
    ensures Join([""] + pieces, sep) == [sep] + Join(pieces, sep)
  {
    assert ([""] + pieces)[1..] == pieces;
  }

  /** A character put in front of the first piece comes first in the join. */
  lemma JoinExtendHead(c: char, pieces: seq<string>, sep: char)
    requires |pieces| >= 1
    ensures Join([[c] + pieces[0]] + pieces[1..], sep) == [c] + Join(pieces, sep)
  {
    var p := [[c] + pieces[0]] + pieces[1..];
    if |pieces| > 1 {
      assert p[1..] == pieces[1..];
      assert Join(p, sep) == ([c] + pieces[0]) + [sep] + Join(pieces[1..], sep);
    }
  }

  /** A string without the separator is a single piece. */
  lemma {:induction false} SplitFree(s: string, sep: char)
    requires sep !in s
    ensures Split(s, sep) == [s]
    decreases |s|
  {
    if s != [] {
      assert sep !in s[1..] by {
        forall c | c in s[1..] ensures c != sep { assert c in s; }
      }
      SplitFree(s[1..], sep);
      assert [s[0]] + s[1..] == s;
    }
  }

  /** Splitting a string at its first separator. */
  lemma {:induction false} SplitAtFirst(a: string, b: string, sep: char)
    requires sep !in a
    ensures Split(a + [sep] + b, sep) == [a] + Split(b, sep)
    decreases |a|
  {
    if a == [] {
      assert a + [sep] + b == [sep] + b;
      assert ([sep] + b)[1..] == b;
    } else {
      var s := a + [sep] + b;
      assert sep !in a[1..] by {
        forall c | c in a[1..] ensures c != sep { assert c in a; }
      }
      SplitAtFirst(a[1..], b, sep);
      assert s[1..] == a[1..] + [sep] + b;
      assert [a[0]] + a[1..] == a;
    }
  }

  /** Splitting undoes joining pieces free of the separator. */
  lemma {:induction false} JoinThenSplit(pieces: seq<string>, sep: char)
    requires |pieces| >= 1
    requires forall i :: 0 <= i < |pieces| ==> sep !in pieces[i]
    ensures Split(Join(pieces, sep), sep) == pieces
    decreases |pieces|
  {
    if |pieces| == 1 {
      SplitFree(pieces[0], sep);
    } else {
      assert forall i :: 0 <= i < |pieces[1..]| ==> sep !in pieces[1..][i] by {
        forall i | 0 <= i < |pieces[1..]| ensures sep !in pieces[1..][i] { assert pieces[1..][i] == pieces[i + 1]; }
      }
      JoinThenSplit(pieces[1..], sep);
      SplitAtFirst(pieces[0], Join(pieces[1..], sep), sep);
      assert [pieces[0]] + pieces[1..] == pieces;
    }
  }

  // ---------------------------------------------------------------- the header

  /** `getAuthToken` fails with "empty auth token" exactly on the empty
      header, succeeds exactly when the header holds one space, and otherwise
      fails with "malformed auth token".  The token it returns has no space,
      and the header is some space-free first piece, a space, and the token. */
  lemma GetAuthTokenSpec(raw: string)
    ensures GetAuthToken(raw) == Failure(ErrEmptyAuthToken) <==> raw == ""
    ensures GetAuthToken(raw).Success? <==> raw != "" && Count(raw, ' ') == 1
    ensures GetAuthToken(raw).Failure? && raw != "" ==> GetAuthToken(raw) == Failure(ErrMalformedAuthToken)
    ensures GetAuthToken(raw).Success? ==>
      var token := GetAuthToken(raw).value;
      && ' ' !in token
      && exists first :: ' ' !in first && raw == first + " " + token
  {
    SplitCount(raw, ' ');
    if GetAuthToken(raw).Success? {
      var pieces := Split(raw, ' ');
      SplitPiecesFree(raw, ' ');
      SplitThenJoin(raw, ' ');
      assert pieces[1..] == [pieces[1]];
      assert raw == pieces[0] + " " + pieces[1];
    }
  }

  /** Any space-free scheme is accepted, "Bearer" or not, and any space-free
      token after it comes back as it is, the empty token included. */
  lemma AnySchemeAccepted(scheme: string, token: string)
    requires ' ' !in scheme && ' ' !in token
    ensures GetAuthToken(scheme + " " + token) == Success(token)
  {
    JoinThenSplit([scheme, token], ' ');
    assert Join([scheme, token], ' ') == scheme + " " + token by {
      assert [scheme, token][1..] == [token];
    }
  }

  /** Headers that are accepted: a scheme with no token, and a scheme other
      than "Bearer". */
  lemma AcceptedHeaders()
    ensures GetAuthToken("Bearer ") == Success("")
    ensures GetAuthToken("Basic abc") == Success("abc")
  {
    AnySchemeAccepted("Bearer", "");
    assert "Bearer" + " " + "" == "Bearer ";
    AnySchemeAccepted("Basic", "abc");
    assert "Basic" + " " + "abc" == "Basic abc";
  }

  /** Headers that are refused: no separator, and two separators. */
  lemma RefusedHeaders()
    ensures GetAuthToken("Bearer") == Failure(ErrMalformedAuthToken)
    ensures GetAuthToken("Bearer a b") == Failure(ErrMalformedAuthToken)
  {
    SplitFree("Bearer", ' ');
    SplitAtFirst("Bearer", "a b", ' ');
    SplitAtFirst("a", "b", ' ');
    SplitFree("b", ' ');
    assert "Bearer" + [' '] + "a b" == "Bearer a b";
    assert "a" + [' '] + "b" == "a b";
  }
}
