/** The allowed-origin list of the CORS configurations:
    `frontendUrl.split("\\s*,\\s*")` on a configured value, a default list
    otherwise. `\s` is the regular-expression class `[ \t\n\x0B\f\r]`. */
module OriginList {
  import opened Wrappers
  import opened Text

  /** `p` holds no comma. */
  predicate NoComma(p: string) {
    forall j :: 0 <= j < |p| ==> p[j] != ','
  }

  /** The position of the first comma, if there is one. */
  function FirstComma(s: string): (r: Option<nat>)
    ensures r.None? ==> NoComma(s)
    ensures r.Some? ==> r.value < |s| && s[r.value] == ',' && NoComma(s[..r.value])
    decreases |s|
  {
    if s == [] then None
    else if s[0] == ',' then Some(0)
    else
      var r := FirstComma(s[1..]);
      if r.None? then
        assert forall j :: 1 <= j < |s| ==> s[j] == s[1..][j - 1];
        None
      else
        assert s[..r.value + 1] == [s[0]] + s[1..][..r.value];
        Some(r.value + 1)
  }

  /** A comma preceded by none is the first one. */
  lemma {:induction false} FirstCommaAt(s: string, n: nat)
    requires n < |s| && s[n] == ',' && NoComma(s[..n])
    ensures FirstComma(s) == Some(n)
    decreases n
  {
    if n > 0 {
      assert s[0] == s[..n][0];
      assert s[1..][..n - 1] == s[1..n];
      assert forall j :: 0 <= j < n - 1 ==> s[1..n][j] == s[..n][j + 1];
      FirstCommaAt(s[1..], n - 1);
    }
  }

  /** `s` without the `\s` characters at its end. */
  function TrimEnd(s: string): (r: string)
    ensures |r| <= |s| && r == s[..|r|]
    ensures EndsClean(r)
  {
    if s == [] || !IsRegexSpace(s[|s| - 1]) then s else TrimEnd(s[..|s| - 1])
  }

  /** `s` without the `\s` characters at its start. */
  function TrimStart(s: string): (r: string)
    ensures |r| <= |s| && r == s[|s| - |r|..]
    ensures StartsClean(r)
  {
    if s == [] || !IsRegexSpace(s[0]) then s
    else
      var r := TrimStart(s[1..]);
      assert s[1..][|s| - 1 - |r|..] == s[|s| - |r|..];
      r
  }

  /** No `\s` at the start, or at the end, of `p`. */
  predicate StartsClean(p: string) {
    p == "" || !IsRegexSpace(p[0])
  }

  predicate EndsClean(p: string) {
    p == "" || !IsRegexSpace(p[|p| - 1])
  }

  /** The pieces between the separators of `s`, where a separator is a comma
      with the whitespace on both sides. Only whitespace next to a comma is
      removed: the first piece keeps its leading and the last its trailing
      whitespace. */
  function Pieces(s: string): (r: seq<string>)
    ensures |r| >= 1
    decreases |s|
  {
    match FirstComma(s)
    case None => [s]
    case Some(i) => [TrimEnd(s[..i])] + Pieces(TrimStart(s[i + 1..]))
  }

  /** One step of the split: the first piece, then the pieces of the rest. */
  lemma PiecesCons(s: string)
    requires FirstComma(s).Some?
    ensures Pieces(s) == [TrimEnd(s[..FirstComma(s).value])] + Pieces(TrimStart(s[FirstComma(s).value + 1..]))
  {
  }

  /** The split of `s`, given its first piece and what follows the first separator. */
  lemma PiecesStep(s: string, head: string, rest: string)
    requires FirstComma(s) == Some(|head|) && s[..|head|] == head && TrimEnd(head) == head
    requires TrimStart(s[|head| + 1..]) == rest
    ensures Pieces(s) == [head] + Pieces(rest)
  {
    PiecesCons(s);
  }

  /** A prefix of a string without commas has none either. */
  lemma NoCommaInPrefix(t: string, n: nat)
    requires NoComma(t) && n <= |t|
    ensures NoComma(t[..n])
  {
  }

  /** No piece contains a comma. */
  lemma {:induction false} PiecesHaveNoComma(s: string)
    ensures forall k :: 0 <= k < |Pieces(s)| ==> NoComma(Pieces(s)[k])
    decreases |s|
  {
    if FirstComma(s).Some? {
      var i := FirstComma(s).value;
      var head := TrimEnd(s[..i]);
      var t := TrimStart(s[i + 1..]);
      PiecesCons(s);
      NoCommaInPrefix(s[..i], |head|);
      PiecesHaveNoComma(t);
      forall k | 0 <= k < |Pieces(s)|
        ensures NoComma(Pieces(s)[k])
      {
        if k > 0 {
          assert Pieces(s)[k] == Pieces(t)[k - 1];
        }
      }
    }
  }

  /** The first piece is a prefix of `s`: leading whitespace is kept. */
  lemma FirstPieceIsPrefix(s: string)
    ensures |Pieces(s)[0]| <= |s| && Pieces(s)[0] == s[..|Pieces(s)[0]|]
  {
    if FirstComma(s).Some? {
      var i := FirstComma(s).value;
      var head := TrimEnd(s[..i]);
      PiecesCons(s);
      assert head == s[..i][..|head|];
      assert s[..i][..|head|] == s[..|head|];
    }
  }

  /** The first piece of a string that starts clean starts clean. */
  lemma FirstPieceStartsClean(s: string)
    requires StartsClean(s)
    ensures StartsClean(Pieces(s)[0])
  {
    FirstPieceIsPrefix(s);
    var p := Pieces(s)[0];
    assert p != "" ==> p[0] == s[0];
  }

  /** Every piece after the first starts clean. */
  lemma {:induction false} PiecesStartClean(s: string)
    ensures forall k :: 0 < k < |Pieces(s)| ==> StartsClean(Pieces(s)[k])
    decreases |s|
  {
    if FirstComma(s).Some? {
      var i := FirstComma(s).value;
      var t := TrimStart(s[i + 1..]);
      PiecesCons(s);
      PiecesStartClean(t);
      FirstPieceStartsClean(t);
      StartsCleanAfterHead(Pieces(s), TrimEnd(s[..i]), Pieces(t));
    }
  }

  /** Putting a first piece in front of pieces that all start clean. */
  lemma StartsCleanAfterHead(ps: seq<string>, head: string, pt: seq<string>)
    requires ps == [head] + pt && |pt| >= 1 && StartsClean(pt[0])
    requires forall k :: 0 < k < |pt| ==> StartsClean(pt[k])
    ensures forall k :: 0 < k < |ps| ==> StartsClean(ps[k])
  {
    forall k | 0 < k < |ps|
      ensures StartsClean(ps[k])
    {
      assert ps[k] == pt[k - 1];
    }
  }

  /** Every piece before the last ends clean. */
  lemma {:induction false} PiecesEndClean(s: string)
    ensures forall k :: 0 <= k < |Pieces(s)| - 1 ==> EndsClean(Pieces(s)[k])
    decreases |s|
  {
    if FirstComma(s).Some? {
      var i := FirstComma(s).value;
      var t := TrimStart(s[i + 1..]);
      PiecesCons(s);
      PiecesEndClean(t);
      forall k | 0 <= k < |Pieces(s)| - 1
        ensures EndsClean(Pieces(s)[k])
      {
        if k > 0 {
          assert Pieces(s)[k] == Pieces(t)[k - 1];
        }
      }
    }
  }

  /** `split` with limit 0 drops the empty strings at the end of the result. */
  function DropTrailingEmpty(ps: seq<string>): (r: seq<string>)
    ensures |r| <= |ps| && r == ps[..|r|]
    ensures r == [] || r[|r| - 1] != ""
    ensures forall k :: |r| <= k < |ps| ==> ps[k] == ""
  {
    if ps == [] || ps[|ps| - 1] != "" then ps else DropTrailingEmpty(ps[..|ps| - 1])
  }

  /** `s.split("\\s*,\\s*")`: without a comma the string itself; otherwise
      the pieces between separators, trailing empty strings dropped. */
  function SplitAtCommas(s: string): (r: seq<string>)
    ensures NoComma(s) ==> r == [s]
    ensures forall k :: 0 <= k < |r| ==> NoComma(r[k])
    ensures forall k :: 0 < k < |r| ==> StartsClean(r[k])
    ensures forall k :: 0 <= k < |r| - 1 ==> EndsClean(r[k])
    ensures s != "" ==> r == [] || r[|r| - 1] != ""
  {
    if FirstComma(s).None? then [s]
    else
      PiecesHaveNoComma(s);
      PiecesStartClean(s);
      PiecesEndClean(s);
      DropTrailingEmpty(Pieces(s))
  }

  /** The list `allowedOrigins` receives: the defaults for a missing or blank
      value, the split value otherwise. */
  function AllowedOrigins(frontendUrl: Option<string>, defaults: seq<string>): (r: seq<string>)
    ensures frontendUrl.None? || IsBlank(frontendUrl.value) ==> r == defaults
    ensures frontendUrl.Some? && !IsBlank(frontendUrl.value) ==> r == SplitAtCommas(frontendUrl.value)
    ensures frontendUrl.Some? && !IsBlank(frontendUrl.value) && NoComma(frontendUrl.value) ==>
      r == [frontendUrl.value]
  {
    if frontendUrl.None? || IsBlank(frontendUrl.value) then defaults else SplitAtCommas(frontendUrl.value)
  }

  /** Origins written out with `", "` between them. */
  function JoinOrigins(os: seq<string>): string
    requires |os| >= 1
  {
    if |os| == 1 then os[0] else os[0] + ", " + JoinOrigins(os[1..])
  }

  /** One match of `\s*,\s*`: the whitespace before the comma and after it. */
  datatype Separator = Separator(before: string, after: string)

  /** Only `\s` characters. */
  predicate AllSpace(w: string) {
    forall j :: 0 <= j < |w| ==> IsRegexSpace(w[j])
  }

  /** Pieces written out with the given separators between them. */
  function JoinWith(ps: seq<string>, seps: seq<Separator>): string
    requires |ps| == |seps| + 1
    decreases |seps|
  {
    if seps == [] then ps[0]
    else ps[0] + seps[0].before + "," + seps[0].after + JoinWith(ps[1..], seps[1..])
  }

  /** The `\s` characters at the end of `s`, which `TrimEnd` removes. */
  function TrailingSpace(s: string): string {
    s[|TrimEnd(s)|..]
  }

  /** The `\s` characters at the start of `s`, which `TrimStart` removes. */
  function LeadingSpace(s: string): string {
    s[..|s| - |TrimStart(s)|]
  }

  /** The matches of `\s*,\s*` that `split` consumes, in order. */
  function Separators(s: string): seq<Separator>
    decreases |s|
  {
    match FirstComma(s)
    case None => []
    case Some(i) => [Separator(TrailingSpace(s[..i]), LeadingSpace(s[i + 1..]))] + Separators(TrimStart(s[i + 1..]))
  }

  /** What `TrimEnd` removes is whitespace. */
  lemma {:induction false} TrailingSpaceIsSpace(s: string)
    ensures AllSpace(TrailingSpace(s))
  {
    if s != [] && IsRegexSpace(s[|s| - 1]) {
      var u := s[..|s| - 1];
      TrailingSpaceIsSpace(u);
      var n := |TrimEnd(s)|;
      forall j | 0 <= j < |s| - n
        ensures IsRegexSpace(s[n..][j])
      {
        if j < |u| - n {
          assert s[n..][j] == u[n..][j];
        }
      }
    }
  }

  /** What `TrimStart` removes is whitespace. */
  lemma {:induction false} LeadingSpaceIsSpace(s: string)
    ensures AllSpace(LeadingSpace(s))
  {
    if s != [] && IsRegexSpace(s[0]) {
      var u := s[1..];
      LeadingSpaceIsSpace(u);
      var n := |s| - |TrimStart(s)|;
      forall j | 0 <= j < n
        ensures IsRegexSpace(s[..n][j])
      {
        if j > 0 {
          assert s[..n][j] == u[..n - 1][j - 1];
        }
      }
    }
  }

  /** `TrimEnd` and `TrailingSpace` cut `s` in two. */
  lemma TrimEndSplits(s: string)
    ensures TrimEnd(s) + TrailingSpace(s) == s && AllSpace(TrailingSpace(s))
  {
    PrefixAndRest(s, TrimEnd(s));
    TrailingSpaceIsSpace(s);
  }

  /** `LeadingSpace` and `TrimStart` cut `s` in two. */
  lemma TrimStartSplits(s: string)
    ensures LeadingSpace(s) + TrimStart(s) == s && AllSpace(LeadingSpace(s))
  {
    SuffixAndRest(s, TrimStart(s));
    LeadingSpaceIsSpace(s);
  }

  /** A prefix of `s` and what follows it. */
  lemma PrefixAndRest(s: string, u: string)
    requires |u| <= |s| && u == s[..|u|]
    ensures u + s[|u|..] == s
  {
  }

  /** What precedes a suffix of `s`, and the suffix. */
  lemma SuffixAndRest(s: string, v: string)
    requires |v| <= |s| && v == s[|s| - |v|..]
    ensures s[..|s| - |v|] + v == s
  {
  }

  /** A string cut at one of its commas. */
  lemma CutAt(s: string, i: nat)
    requires i < |s| && s[i] == ','
    ensures s == s[..i] + "," + s[i + 1..]
  {
  }

  /** The string is its first piece, the first separator and the rest. */
  lemma CutAroundComma(s: string, i: nat)
    requires i < |s| && s[i] == ','
    ensures s == TrimEnd(s[..i]) + TrailingSpace(s[..i]) + "," + LeadingSpace(s[i + 1..]) + TrimStart(s[i + 1..])
  {
    CutAt(s, i);
    TrimEndSplits(s[..i]);
    TrimStartSplits(s[i + 1..]);
  }

  /** `JoinWith` one step at a time. */
  lemma JoinWithCons(p: string, sep: Separator, ps: seq<string>, seps: seq<Separator>)
    requires |ps| == |seps| + 1
    ensures JoinWith([p] + ps, [sep] + seps) == p + sep.before + "," + sep.after + JoinWith(ps, seps)
  {
    assert ([p] + ps)[1..] == ps && ([sep] + seps)[1..] == seps;
  }

  /** One step of `Separators`. */
  lemma SeparatorsCons(s: string)
    requires FirstComma(s).Some?
    ensures Separators(s) ==
      [Separator(TrailingSpace(s[..FirstComma(s).value]), LeadingSpace(s[FirstComma(s).value + 1..]))]
      + Separators(TrimStart(s[FirstComma(s).value + 1..]))
  {
  }

  /** `seps` are matches of `\s*,\s*`, one between each two of `ps`, and
      writing them out between the pieces gives `s`. */
  predicate Rejoins(ps: seq<string>, seps: seq<Separator>, s: string) {
    && |ps| == |seps| + 1
    && (forall k :: 0 <= k < |seps| ==> AllSpace(seps[k].before) && AllSpace(seps[k].after))
    && JoinWith(ps, seps) == s
  }

  /** A first piece and a separator in front of a rejoin. */
  lemma RejoinsCons(head: string, sep: Separator, pt: seq<string>, st: seq<Separator>, t: string, s: string)
    requires Rejoins(pt, st, t) && AllSpace(sep.before) && AllSpace(sep.after)
    requires s == head + sep.before + "," + sep.after + t
    ensures Rejoins([head] + pt, [sep] + st, s)
  {
    JoinWithCons(head, sep, pt, st);
    var seps := [sep] + st;
    forall k | 0 <= k < |seps|
      ensures AllSpace(seps[k].before) && AllSpace(seps[k].after)
    {
      if k > 0 {
        assert seps[k] == st[k - 1];
      }
    }
  }

  /** The pieces, with the separators `split` consumed between them, give
      the string back. */
  lemma {:induction false} PiecesRejoin(s: string)
    ensures Rejoins(Pieces(s), Separators(s), s)
    decreases |s|
  {
    if FirstComma(s).None? {
      assert Pieces(s) == [s] && Separators(s) == [];
    } else {
      var i := FirstComma(s).value;
      var t := TrimStart(s[i + 1..]);
      PiecesCons(s);
      SeparatorsCons(s);
      PiecesRejoin(t);
      TrimEndSplits(s[..i]);
      TrimStartSplits(s[i + 1..]);
      CutAroundComma(s, i);
      RejoinsCons(TrimEnd(s[..i]), Separator(TrailingSpace(s[..i]), LeadingSpace(s[i + 1..])),
                  Pieces(t), Separators(t), t, s);
    }
  }

  /** `n` empty strings: what `split` drops at the end. */
  function Empties(n: nat): seq<string> {
    seq(n, _ => "")
  }

  /** Putting back the dropped empty strings keeps a rejoin valid. */
  lemma RejoinsWithEmpties(ps: seq<string>, r: seq<string>, seps: seq<Separator>, s: string)
    requires Rejoins(ps, seps, s)
    requires |r| <= |ps| && r == ps[..|r|]
    requires forall k :: |r| <= k < |ps| ==> ps[k] == ""
    ensures Rejoins(r + Empties(|seps| + 1 - |r|), seps, s)
  {
    assert r + Empties(|ps| - |r|) == ps;
  }

  /** What `split` returns says how the string was written: its pieces,
      with the empty strings it dropped put back, joined by the matches of
      `\s*,\s*` it consumed, are the string itself. */
  lemma SplitAtCommasRejoins(s: string)
    ensures |SplitAtCommas(s)| <= |Separators(s)| + 1
    ensures Rejoins(SplitAtCommas(s) + Empties(|Separators(s)| + 1 - |SplitAtCommas(s)|), Separators(s), s)
  {
    var r, ps, seps := SplitAtCommas(s), Pieces(s), Separators(s);
    PiecesRejoin(s);
    if FirstComma(s).None? {
      assert r == [s] && seps == [];
      SingleRejoins(r, seps, s);
    } else {
      assert r == DropTrailingEmpty(ps);
      RejoinsWithEmpties(ps, r, seps, s);
    }
  }

  /** A string without separators rejoins as itself. */
  lemma SingleRejoins(r: seq<string>, seps: seq<Separator>, s: string)
    requires r == [s] && seps == []
    ensures Rejoins(r + Empties(0), seps, s)
  {
    assert r + Empties(0) == [s];
  }

  /** An origin as the round trip needs it: non-empty, no comma, no
      whitespace at either end. */
  predicate TidyOrigin(o: string) {
    o != "" && NoComma(o) && !IsWhitespace(o[0]) && !IsWhitespace(o[|o| - 1])
  }

  /** The comma written after a string without commas is its first comma. */
  lemma FirstSeparator(head: string, tail: string)
    requires NoComma(head)
    ensures FirstComma(head + ", " + tail) == Some(|head|)
  {
    SeparatorSlices(head, tail);
    FirstCommaAt(head + ", " + tail, |head|);
  }

  /** What surrounds the separator written after `head`. */
  lemma SeparatorSlices(head: string, tail: string)
    ensures (head + ", " + tail)[..|head|] == head
    ensures (head + ", " + tail)[|head| + 1..] == " " + tail
  {
  }

  /** The blank after a separator is trimmed, and nothing more. */
  lemma TrimStartAfterBlank(tail: string)
    requires tail != "" && !IsWhitespace(tail[0])
    ensures TrimStart(" " + tail) == tail
  {
    assert (" " + tail)[1..] == tail;
  }

  /** A tidy origin has no whitespace to trim at its end. */
  lemma TrimEndTidy(o: string)
    requires TidyOrigin(o)
    ensures TrimEnd(o) == o
  {
  }

  /** The separator after a tidy origin splits it off. */
  lemma PiecesAfterTidy(head: string, tail: string)
    requires TidyOrigin(head) && tail != "" && !IsWhitespace(tail[0])
    ensures Pieces(head + ", " + tail) == [head] + Pieces(tail)
  {
    FirstSeparator(head, tail);
    SeparatorSlices(head, tail);
    TrimStartAfterBlank(tail);
    TrimEndTidy(head);
    PiecesStep(head + ", " + tail, head, tail);
  }

  /** Splitting a list written with `", "` gives the list back. */
  lemma {:induction false} PiecesOfJoin(os: seq<string>)
    requires |os| >= 1
    requires forall o :: o in os ==> TidyOrigin(o)
    ensures Pieces(JoinOrigins(os)) == os
  {
    if |os| == 1 {
      assert os[0] in os;
    } else {
      var rest := os[1..];
      assert os[0] in os && os[1] in os && rest[0] == os[1];
      assert forall o :: o in rest ==> o in os;
      PiecesOfJoin(rest);
      PiecesOfJoinCons(os[0], rest);
      assert os == [os[0]] + rest;
    }
  }

  lemma PiecesOfJoinCons(head: string, rest: seq<string>)
    requires |rest| >= 1 && TidyOrigin(head) && TidyOrigin(rest[0])
    requires Pieces(JoinOrigins(rest)) == rest
    ensures Pieces(JoinOrigins([head] + rest)) == [head] + rest
  {
    var tail := JoinOrigins(rest);
    assert ([head] + rest)[1..] == rest;
    assert JoinOrigins([head] + rest) == head + ", " + tail;
    JoinStartsWith(rest);
    PiecesAfterTidy(head, tail);
  }

  /** A joined list starts with its first origin. */
  lemma {:induction false} JoinStartsWith(os: seq<string>)
    requires |os| >= 1 && os[0] != ""
    ensures JoinOrigins(os) != "" && JoinOrigins(os)[0] == os[0][0]
  {
  }

  /** The round trip through the configuration property. */
  lemma SplitOfJoin(os: seq<string>)
    requires |os| >= 1
    requires forall o :: o in os ==> TidyOrigin(o)
    ensures SplitAtCommas(JoinOrigins(os)) == os
  {
    if |os| > 1 {
      assert os[0] in os;
      assert JoinOrigins(os) == os[0] + ", " + JoinOrigins(os[1..]);
      FirstSeparator(os[0], JoinOrigins(os[1..]));
      PiecesOfJoin(os);
      assert os[|os| - 1] in os;
    }
  }

  /** A configured list written with `", "` is what the configuration allows,
      whatever the defaults. */
  lemma AllowedOriginsOfJoin(os: seq<string>, defaults: seq<string>)
    requires |os| >= 1
    requires forall o :: o in os ==> TidyOrigin(o)
    ensures AllowedOrigins(Some(JoinOrigins(os)), defaults) == os
  {
    assert os[0] in os;
    JoinStartsWith(os);
    assert !IsBlank(JoinOrigins(os)) by {
      assert !IsWhitespace(JoinOrigins(os)[0]);
    }
    SplitOfJoin(os);
  }
}
