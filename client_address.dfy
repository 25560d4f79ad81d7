/**
 * Client address extraction (`remote_address` in friendly/api/utils.py).
 *
 * The request metadata is a map from header names to header values. When the
 * `X-Forwarded-For` header (metadata key `HTTP_X_FORWARDED_FOR`) is present and
 * non-empty, the client address is its first comma-separated hop, exactly as
 * written (no whitespace is trimmed). Otherwise it is `REMOTE_ADDR`, which may
 * itself be missing.
 */
module ClientAddress {
  import opened Wrappers

  const ForwardedForKey: string := "HTTP_X_FORWARDED_FOR"
  const RemoteAddrKey: string := "REMOTE_ADDR"
  const Comma: char := ','

  /** Number of occurrences of `c` in `s`. */
  function Count(s: string, c: char): nat
  {
    if s == [] then 0 else (if s[0] == c then 1 else 0) + Count(s[1..], c)
  }

  /**
   * Python's `s.split(sep)` with an explicit one-character separator: the
   * pieces between separators, always at least one (`"".split(",") == [""]`),
   * one more than the separators in `s`, and none of them holding `sep`.
   */
  function Split(s: string, sep: char): (parts: seq<string>)
    ensures |parts| == Count(s, sep) + 1
    ensures forall i :: 0 <= i < |parts| ==> sep !in parts[i]
  {
    if s == [] then [[]]
    else
      var rest := Split(s[1..], sep);
      if s[0] == sep then [[]] + rest
      else [[s[0]] + rest[0]] + rest[1..]
  }

  /** Python's `sep.join(parts)`. */
  function Join(parts: seq<string>, sep: char): string
    requires |parts| >= 1
  {
    if |parts| == 1 then parts[0] else parts[0] + [sep] + Join(parts[1..], sep)
  }

  /** Splitting and re-joining on the same separator gives back the input. */
  lemma {:induction false} JoinSplit(s: string, sep: char)
    ensures Join(Split(s, sep), sep) == s
  {
    if s != [] {
      var rest := Split(s[1..], sep);
      JoinSplit(s[1..], sep);
      if s[0] == sep {
        assert Split(s, sep)[1..] == rest;
      } else if |rest| == 1 {
        assert Split(s, sep) == [[s[0]] + rest[0]];
      } else {
        var parts := Split(s, sep);
        assert parts[1..] == rest[1..];
        calc {
          Join(parts, sep);
          parts[0] + [sep] + Join(rest[1..], sep);
          [s[0]] + (rest[0] + [sep] + Join(rest[1..], sep));
          [s[0]] + Join(rest, sep);
          s;
        }
      }
    }
  }

  /** Splitting a join of separator-free pieces gives back the pieces. */
  lemma {:induction false} SplitJoin(parts: seq<string>, sep: char)
    requires |parts| >= 1
    requires forall i :: 0 <= i < |parts| ==> sep !in parts[i]
    ensures Split(Join(parts, sep), sep) == parts
    decreases |parts|, |parts[0]|
  {
    var head := parts[0];
    if head == [] {
      if |parts| > 1 {
        SplitJoin(parts[1..], sep);
        assert Join(parts, sep) == [sep] + Join(parts[1..], sep);
        assert ([sep] + Join(parts[1..], sep))[1..] == Join(parts[1..], sep);
        assert parts == [[]] + parts[1..];
      }
    } else {
      var shorter := [head[1..]] + parts[1..];
      assert forall i :: 0 <= i < |shorter| ==> sep !in shorter[i] by {
        forall i | 0 <= i < |shorter| ensures sep !in shorter[i] {
          if i > 0 { assert shorter[i] == parts[i]; }
        }
      }
      SplitJoin(shorter, sep);
      var s := Join(parts, sep);
      assert shorter[1..] == parts[1..];
      assert s == [head[0]] + Join(shorter, sep);
      assert s[0] == head[0] && s[1..] == Join(shorter, sep);
      assert [head[0]] + head[1..] == head;
      assert Split(s, sep) == [head] + parts[1..];
      assert [head] + parts[1..] == parts;
    }
  }

  /**
   * The first piece of a split is the longest prefix of `s` free of `sep`:
   * it is a prefix, holds no `sep`, and is followed by `sep` or by the end.
   */
  lemma {:induction false} FirstPieceIsPrefix(s: string, sep: char)
    ensures var h := Split(s, sep)[0];
      && |h| <= |s| && s[..|h|] == h && sep !in h
      && (|h| == |s| || s[|h|] == sep)
  {
    if s != [] && s[0] != sep {
      FirstPieceIsPrefix(s[1..], sep);
      var h := Split(s, sep)[0];
      assert h == [s[0]] + Split(s[1..], sep)[0];
    }
  }

  /** Without any separator the first piece is the whole string. */
  lemma {:induction false} FirstPieceWithoutSeparator(s: string, sep: char)
    requires sep !in s
    ensures Split(s, sep)[0] == s
  {
    FirstPieceIsPrefix(s, sep);
  }

  /**
   * `remote_address(request)` over the request metadata. An absent
   * `X-Forwarded-For` and an empty one are both falsy in Python and take the
   * same `REMOTE_ADDR` branch.
   */
  function RemoteAddress(meta: map<string, string>): (ip: Option<string>)
    ensures ForwardedForKey in meta && meta[ForwardedForKey] != [] ==>
      && ip.Some?
      && var xff := meta[ForwardedForKey];
         && Comma !in ip.value
         && |ip.value| <= |xff| && xff[..|ip.value|] == ip.value
         && (|ip.value| == |xff| || xff[|ip.value|] == Comma)
    ensures !(ForwardedForKey in meta && meta[ForwardedForKey] != []) ==>
      ip == Get(meta, RemoteAddrKey)
    ensures ip.None? <==>
      (ForwardedForKey !in meta || meta[ForwardedForKey] == []) && RemoteAddrKey !in meta
  {
    var forwarded := Get(meta, ForwardedForKey);
    if forwarded.Some? && forwarded.value != [] then
      FirstPieceIsPrefix(forwarded.value, Comma);
      Some(Split(forwarded.value, Comma)[0])
    else
      Get(meta, RemoteAddrKey)
  }

  /** A forwarded header with a single hop is returned whole, untrimmed. */
  lemma SingleHopReturnedWhole(meta: map<string, string>)
    requires ForwardedForKey in meta && meta[ForwardedForKey] != []
    requires Comma !in meta[ForwardedForKey]
    ensures RemoteAddress(meta) == Some(meta[ForwardedForKey])
  {
    FirstPieceWithoutSeparator(meta[ForwardedForKey], Comma);
  }

  /**
   * The forwarded header is the returned hop followed either by nothing or by
   * a comma and the remaining hops.
   */
  lemma {:induction false} ForwardedHeaderRebuilt(meta: map<string, string>)
    requires ForwardedForKey in meta && meta[ForwardedForKey] != []
    ensures RemoteAddress(meta).Some?
    ensures var xff := meta[ForwardedForKey];
      var parts := Split(xff, Comma);
      && RemoteAddress(meta).value == parts[0]
      && xff == if |parts| == 1 then parts[0] else parts[0] + [Comma] + Join(parts[1..], Comma)
  {
    JoinSplit(meta[ForwardedForKey], Comma);
  }

  /** Only the two metadata keys read by the function decide its result. */
  lemma OnlyTwoKeysMatter(m1: map<string, string>, m2: map<string, string>)
    requires Get(m1, ForwardedForKey) == Get(m2, ForwardedForKey)
    requires Get(m1, RemoteAddrKey) == Get(m2, RemoteAddrKey)
    ensures RemoteAddress(m1) == RemoteAddress(m2)
  {
  }
}
