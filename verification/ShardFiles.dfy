/** The file each shard is stored in (src/persistence.rs:62-94). */
module ShardFiles {
  import opened Text
  import opened Namespaces

  const INTERNAL_FILE := "sightingdb.json.zst"
  const SHARD_SUFFIX := ".json.zst"
  const NAME_BYTES: nat := 80

  predicate IsSafe(c: char)
  {
    'a' <= c <= 'z' || 'A' <= c <= 'Z' || '0' <= c <= '9' || c == '.' || c == '_' || c == '-'
  }

  /** The UTF-8 bytes of a character. */
  function Utf8(c: char): (r: seq<nat>)
    ensures 1 <= |r| <= 4 && forall i :: 0 <= i < |r| ==> r[i] < 256
  {
    var n := c as int;
    if n < 0x80 then [n]
    else if n < 0x800 then [0xC0 + n / 0x40, 0x80 + n % 0x40]
    else if n < 0x10000 then [0xE0 + n / 0x1000, 0x80 + n / 0x40 % 0x40, 0x80 + n % 0x40]
    else [0xF0 + n / 0x40000, 0x80 + n / 0x1000 % 0x40, 0x80 + n / 0x40 % 0x40, 0x80 + n % 0x40]
  }

  function HexDigit(d: nat): char
    requires d < 16
  {
    if d < 10 then '0' + d as char else 'A' + (d - 10) as char
  }

  function Hex(b: nat): (r: string)
    requires b < 256
    ensures |r| == 3 && r[0] == '%'
  {
    ['%', HexDigit(b / 16), HexDigit(b % 16)]
  }

  function Escaped(bytes: seq<nat>): (r: string)
    requires forall i :: 0 <= i < |bytes| ==> bytes[i] < 256
    ensures |r| == 3 * |bytes|
  {
    if |bytes| == 0 then "" else Hex(bytes[0]) + Escaped(bytes[1..])
  }

  function Piece(c: char): string
  {
    if IsSafe(c) then [c] else Escaped(Utf8(c))
  }

  function Encoded(shard: string): string
  {
    if |shard| == 0 then "" else Piece(shard[0]) + Encoded(shard[1..])
  }

  function Truncated(s: string): string
  {
    if |s| <= NAME_BYTES then s else s[..NAME_BYTES]
  }

  /** `hash` is the first four bytes of the name's digest in lower-case hexadecimal. */
  function FileName(shard: string, hash: string -> string): string
  {
    if shard == INTERNAL_SHARD then INTERNAL_FILE
    else Truncated(Encoded(shard)) + "-" + hash(shard) + SHARD_SUFFIX
  }

  // ---------------------------------------------------------------------
  // Building the name.
  // ---------------------------------------------------------------------

  method ShardFile(shard: string, hash: string -> string) returns (name: string)
    ensures name == FileName(shard, hash)
  {
    if shard == INTERNAL_SHARD { return INTERNAL_FILE; }
    var safe := "";
    for i := 0 to |shard|
      invariant safe + Encoded(shard[i..]) == Encoded(shard)
    {
      assert shard[i..][0] == shard[i] && shard[i..][1..] == shard[i + 1..];
      Regroup(safe, Piece(shard[i]), Encoded(shard[i + 1..]));
      if IsSafe(shard[i]) {
        safe := safe + [shard[i]];
      } else {
        var escape := PercentEncode(Utf8(shard[i]));
        safe := safe + escape;
      }
    }
    assert shard[|shard|..] == "" && safe + "" == safe;
    name := Truncated(safe) + "-" + hash(shard) + SHARD_SUFFIX;
  }

  method PercentEncode(bytes: seq<nat>) returns (escape: string)
    requires forall i :: 0 <= i < |bytes| ==> bytes[i] < 256
    ensures escape == Escaped(bytes)
  {
    escape := "";
    for i := 0 to |bytes|
      invariant escape + Escaped(bytes[i..]) == Escaped(bytes)
    {
      assert bytes[i..][0] == bytes[i] && bytes[i..][1..] == bytes[i + 1..];
      Regroup(escape, Hex(bytes[i]), Escaped(bytes[i + 1..]));
      escape := escape + Hex(bytes[i]);
    }
    assert bytes[|bytes|..] == [] && escape + "" == escape;
  }

  // ---------------------------------------------------------------------
  // The encoding can be read back, so it tells any two names apart.
  // ---------------------------------------------------------------------

  lemma SplitEqual<T>(a: seq<T>, b: seq<T>, s: seq<T>, t: seq<T>)
    requires a + s == b + t && |a| == |b|
    ensures a == b && s == t
  {
    assert a == (a + s)[..|a|] && b == (b + t)[..|a|];
    assert s == (a + s)[|a|..] && t == (b + t)[|a|..];
  }

  lemma HexInjective(b: nat, d: nat)
    requires b < 256 && d < 256 && Hex(b) == Hex(d)
    ensures b == d
  {
    assert Hex(b)[1] == Hex(d)[1] && Hex(b)[2] == Hex(d)[2];
  }

  lemma {:induction false} EscapedInjective(a: seq<nat>, b: seq<nat>)
    requires forall i :: 0 <= i < |a| ==> a[i] < 256
    requires forall i :: 0 <= i < |b| ==> b[i] < 256
    requires Escaped(a) == Escaped(b)
    ensures a == b
  {
    if |a| > 0 {
      SplitEqual(Hex(a[0]), Hex(b[0]), Escaped(a[1..]), Escaped(b[1..]));
      HexInjective(a[0], b[0]);
      EscapedInjective(a[1..], b[1..]);
      assert a == [a[0]] + a[1..] && b == [b[0]] + b[1..];
    }
  }

  /** How many bytes a character has is told by its first byte. */
  lemma LeadByte(c: char)
    ensures var lead := Utf8(c)[0];
            |Utf8(c)| == if lead < 0x80 then 1 else if lead < 0xE0 then 2 else if lead < 0xF0 then 3 else 4
  {
  }

  lemma Utf8Injective(c: char, d: char)
    requires Utf8(c) == Utf8(d)
    ensures c == d
  {
    var m, n := c as int, d as int;
    assert |Utf8(c)| == |Utf8(d)|;
    assert Utf8(c)[0] == Utf8(d)[0];
    if |Utf8(c)| >= 2 { assert Utf8(c)[1] == Utf8(d)[1]; }
    if |Utf8(c)| >= 3 { assert Utf8(c)[2] == Utf8(d)[2]; }
    if |Utf8(c)| == 4 { assert Utf8(c)[3] == Utf8(d)[3]; }
    if |Utf8(c)| == 2 {
      assert m == m / 0x40 * 0x40 + m % 0x40 && n == n / 0x40 * 0x40 + n % 0x40;
    } else if |Utf8(c)| == 3 {
      Digits3(m);
      Digits3(n);
    } else if |Utf8(c)| == 4 {
      Digits4(m);
      Digits4(n);
    }
  }

  lemma Digits3(n: nat)
    ensures n == n / 0x1000 * 0x1000 + n / 0x40 % 0x40 * 0x40 + n % 0x40
  {
    assert n / 0x1000 == n / 0x40 / 0x40;
  }

  lemma Digits4(n: nat)
    ensures n == n / 0x40000 * 0x40000 + n / 0x1000 % 0x40 * 0x1000 + n / 0x40 % 0x40 * 0x40 + n % 0x40
  {
    Digits3(n);
    assert n / 0x40000 == n / 0x1000 / 0x40;
  }

  /** No character's piece is the beginning of another's. */
  lemma PieceDecides(c: char, d: char, s: string, t: string)
    requires Piece(c) + s == Piece(d) + t
    ensures c == d && s == t
  {
    assert (Piece(c) + s)[0] == Piece(c)[0] && (Piece(d) + t)[0] == Piece(d)[0];
    assert !IsSafe('%');
    if !IsSafe(c) {
      var a, b := Utf8(c), Utf8(d);
      assert Piece(c)[..3] == Hex(a[0]) && Piece(d)[..3] == Hex(b[0]);
      assert (Piece(c) + s)[..3] == Hex(a[0]) && (Piece(d) + t)[..3] == Hex(b[0]);
      HexInjective(a[0], b[0]);
      LeadByte(c);
      LeadByte(d);
      SplitEqual(Piece(c), Piece(d), s, t);
      EscapedInjective(a, b);
      Utf8Injective(c, d);
    } else {
      SplitEqual(Piece(c), Piece(d), s, t);
    }
  }

  lemma EncodedEmpty(a: string)
    ensures |Encoded(a)| == 0 <==> |a| == 0
  {
  }

  lemma {:induction false} EncodedInjective(a: string, b: string)
    requires Encoded(a) == Encoded(b)
    ensures a == b
  {
    if |a| == 0 || |b| == 0 {
      EncodedEmpty(a);
      EncodedEmpty(b);
    } else {
      PieceDecides(a[0], b[0], Encoded(a[1..]), Encoded(b[1..]));
      EncodedInjective(a[1..], b[1..]);
      assert a == [a[0]] + a[1..] && b == [b[0]] + b[1..];
    }
  }

  /** The value of a hexadecimal digit. */
  function DigitValue(c: char): nat
  {
    if '0' <= c <= '9' then c as nat - '0' as nat
    else if 'A' <= c <= 'F' then c as nat - 'A' as nat + 10
    else 0
  }

  /** Percent-decoding: a percent sign and two digits, the high one first, are one
      byte; every other character stands for itself. */
  function Decoded(s: string): seq<nat>
  {
    if |s| == 0 then []
    else if s[0] == '%' && |s| >= 3 then [16 * DigitValue(s[1]) + DigitValue(s[2])] + Decoded(s[3..])
    else [s[0] as nat] + Decoded(s[1..])
  }

  function Bytes(s: string): seq<nat>
  {
    if |s| == 0 then [] else Utf8(s[0]) + Bytes(s[1..])
  }

  lemma DecodedByte(b: nat, rest: string)
    requires b < 256
    ensures Decoded(Hex(b) + rest) == [b] + Decoded(rest)
  {
    var s := Hex(b) + rest;
    assert s[0] == '%' && s[1] == HexDigit(b / 16) && s[2] == HexDigit(b % 16) && s[3..] == rest;
  }

  lemma {:induction false} DecodedBytes(bytes: seq<nat>, rest: string)
    requires forall i :: 0 <= i < |bytes| ==> bytes[i] < 256
    ensures Decoded(Escaped(bytes) + rest) == bytes + Decoded(rest)
  {
    if |bytes| == 0 {
      assert Escaped(bytes) + rest == rest && bytes + Decoded(rest) == Decoded(rest);
    } else {
      DecodedBytes(bytes[1..], rest);
      Regroup(Hex(bytes[0]), Escaped(bytes[1..]), rest);
      DecodedByte(bytes[0], Escaped(bytes[1..]) + rest);
      Regroup([bytes[0]], bytes[1..], Decoded(rest));
      assert bytes == [bytes[0]] + bytes[1..];
    }
  }

  lemma DecodedPiece(c: char, rest: string)
    ensures Decoded(Piece(c) + rest) == Utf8(c) + Decoded(rest)
  {
    if IsSafe(c) {
      assert ([c] + rest)[0] == c && ([c] + rest)[1..] == rest;
    } else {
      DecodedBytes(Utf8(c), rest);
    }
  }

  /** Decoding a shard's encoded name gives its UTF-8 bytes. */
  lemma {:induction false} DecodesBack(shard: string)
    ensures Decoded(Encoded(shard)) == Bytes(shard)
  {
    if |shard| > 0 {
      DecodesBack(shard[1..]);
      DecodedPiece(shard[0], Encoded(shard[1..]));
    }
  }

  /** The code point a UTF-8 sequence stands for (section 3 of RFC 3629). */
  function CodePoint(b: seq<int>): int
    requires 1 <= |b| <= 4
  {
    if |b| == 1 then b[0]
    else if |b| == 2 then (b[0] - 0xC0) * 0x40 + (b[1] - 0x80)
    else if |b| == 3 then (b[0] - 0xE0) * 0x1000 + (b[1] - 0x80) * 0x40 + (b[2] - 0x80)
    else (b[0] - 0xF0) * 0x40000 + (b[1] - 0x80) * 0x1000 + (b[2] - 0x80) * 0x40 + (b[3] - 0x80)
  }

  lemma Utf8Decodes(c: char)
    ensures CodePoint(Utf8(c)) == c as int
    ensures forall i :: 1 <= i < |Utf8(c)| ==> 0x80 <= Utf8(c)[i] < 0xC0
  {
    var n := c as int;
    if 0x800 <= n < 0x10000 { Digits3(n); }
    if n >= 0x10000 { Digits4(n); }
  }

  /** An ASCII letter or digit, a dash, a dot or an underscore, by its code. */
  predicate IsPlain(c: char)
  {
    var n := c as int;
    0x41 <= n <= 0x5A || 0x61 <= n <= 0x7A || 0x30 <= n <= 0x39 || n == 0x2D || n == 0x2E || n == 0x5F
  }

  /** A plain name is its own encoding. */
  lemma {:induction false} PlainStays(shard: string)
    requires forall c :: c in shard ==> IsPlain(c)
    ensures Encoded(shard) == shard
  {
    if |shard| > 0 {
      assert shard[0] in shard;
      PlainStays(shard[1..]);
    }
  }

  /** And every encoded name is made of such characters and percent signs, so that
      it names a file and never a directory. */
  lemma {:induction false} EncodedIsPlain(shard: string)
    ensures forall c :: c in Encoded(shard) ==> IsPlain(c) || c == '%'
  {
    if |shard| > 0 {
      EncodedIsPlain(shard[1..]);
      if !IsSafe(shard[0]) { EscapedIsPlain(Utf8(shard[0])); }
    }
  }

  lemma {:induction false} EscapedIsPlain(bytes: seq<nat>)
    requires forall i :: 0 <= i < |bytes| ==> bytes[i] < 256
    ensures forall c :: c in Escaped(bytes) ==> IsPlain(c) || c == '%'
  {
    if |bytes| > 0 {
      EscapedIsPlain(bytes[1..]);
      assert Hex(bytes[0]) == ['%', HexDigit(bytes[0] / 16), HexDigit(bytes[0] % 16)];
    }
  }

  // ---------------------------------------------------------------------
  // One file for each shard.
  // ---------------------------------------------------------------------

  predicate IsHash(hash: string -> string, shard: string)
  {
    |hash(shard)| == 8
  }

  lemma LongNameParts(a: string, b: string, c: string, d: string)
    requires |b| == |d| == 8
    ensures a + "-" + b + SHARD_SUFFIX == c + "-" + d + SHARD_SUFFIX <==> a == c && b == d
  {
    if a + "-" + b + SHARD_SUFFIX == c + "-" + d + SHARD_SUFFIX {
      assert |a + "-" + b + SHARD_SUFFIX| == |a| + 9 + |SHARD_SUFFIX|;
      assert |c + "-" + d + SHARD_SUFFIX| == |c| + 9 + |SHARD_SUFFIX|;
      SplitEqual(a + "-" + b, c + "-" + d, SHARD_SUFFIX, SHARD_SUFFIX);
      SplitEqual(a + "-", c + "-", b, d);
      SplitEqual(a, c, "-", "-");
    }
  }

  /** No user shard is written over the server's own file, whatever it is called. */
  lemma NeverTheInternalFile(shard: string, hash: string -> string)
    requires shard != INTERNAL_SHARD && IsHash(hash, shard)
    ensures FileName(shard, hash) != INTERNAL_FILE
  {
    var safe := Truncated(Encoded(shard));
    var name := FileName(shard, hash);
    assert |name| == |safe| + 9 + |SHARD_SUFFIX|;
    if |safe| == 1 {
      assert name[1] == '-' && INTERNAL_FILE[1] == 'i';
    }
  }

  /** Two user shards share a file exactly when their hashes collide and their
      encodings agree as far as the name has room for. */
  lemma SameFileIff(a: string, b: string, hash: string -> string)
    requires a != INTERNAL_SHARD && b != INTERNAL_SHARD && IsHash(hash, a) && IsHash(hash, b)
    ensures FileName(a, hash) == FileName(b, hash) <==>
            Truncated(Encoded(a)) == Truncated(Encoded(b)) && hash(a) == hash(b)
  {
    LongNameParts(Truncated(Encoded(a)), hash(a), Truncated(Encoded(b)), hash(b));
  }

  /** A short plain name is found in its file's name as it is, and no file's name
      is longer than 98 characters. */
  lemma FileNameIs(shard: string, hash: string -> string)
    requires IsHash(hash, shard)
    ensures shard != "_internal" && |shard| <= 80 && (forall c :: c in shard ==> IsPlain(c)) ==>
              FileName(shard, hash) == shard + "-" + hash(shard) + ".json.zst"
    ensures |FileName(shard, hash)| <= 98
    ensures FileName("_internal", hash) == "sightingdb.json.zst"
  {
    if forall c :: c in shard ==> IsPlain(c) { PlainStays(shard); }
  }

  predicate Fits(shard: string)
  {
    |Encoded(shard)| <= NAME_BYTES
  }

  /** Whatever the hash, shards whose encoding fits each have a file of their own. */
  lemma FileNameInjective(a: string, b: string, hash: string -> string)
    requires Fits(a) && Fits(b) && IsHash(hash, a) && IsHash(hash, b)
    ensures FileName(a, hash) == FileName(b, hash) <==> a == b
  {
    if FileName(a, hash) == FileName(b, hash) {
      if a == INTERNAL_SHARD || b == INTERNAL_SHARD {
        if a != b { NeverTheInternalFile(if a == INTERNAL_SHARD then b else a, hash); }
      } else {
        SameFileIff(a, b, hash);
        EncodedInjective(a, b);
      }
    }
  }

  // ---------------------------------------------------------------------
  // A directory of files is a map from shards.
  // ---------------------------------------------------------------------

  ghost predicate TellsApart(name: string -> string, shards: set<string>)
  {
    forall s, t :: s in shards && t in shards && name(s) == name(t) ==> s == t
  }

  lemma FileNamesTellApart(shards: set<string>, hash: string -> string)
    requires forall s :: s in shards ==> Fits(s) && IsHash(hash, s)
    ensures TellsApart(s => FileName(s, hash), shards)
  {
    forall s, t | s in shards && t in shards && FileName(s, hash) == FileName(t, hash) ensures s == t {
      FileNameInjective(s, t, hash);
    }
  }

  ghost predicate Named(file: string, shards: set<string>, name: string -> string)
  {
    exists s :: s in shards && name(s) == file
  }

  /** The directory holds each shard's contents under its name, and nothing else. */
  ghost predicate Stores<V>(directory: map<string, V>, files: map<string, V>, name: string -> string)
  {
    && (forall s :: s in files ==> name(s) in directory && directory[name(s)] == files[s])
    && (forall file :: file in directory ==> Named(file, files.Keys, name))
  }

  /** Writing a shard's file is updating the map at that shard and nowhere else. */
  lemma WriteFile<V>(directory: map<string, V>, files: map<string, V>, name: string -> string, shard: string, v: V)
    requires Stores(directory, files, name) && TellsApart(name, files.Keys + {shard})
    ensures Stores(directory[name(shard) := v], files[shard := v], name)
  {
    var kept := files[shard := v];
    assert shard in kept.Keys;
    forall file | file in directory && file != name(shard) ensures Named(file, kept.Keys, name) {
      assert Named(file, files.Keys, name);
      var s :| s in files.Keys && name(s) == file;
      assert s in kept.Keys;
    }
  }

  /** Deleting it is dropping that shard and no other. */
  lemma RemoveFile<V>(directory: map<string, V>, files: map<string, V>, name: string -> string, shard: string)
    requires Stores(directory, files, name) && TellsApart(name, files.Keys + {shard})
    ensures Stores(directory - {name(shard)}, files - {shard}, name)
  {
    var kept := files - {shard};
    forall file | file in directory && file != name(shard) ensures Named(file, kept.Keys, name) {
      assert Named(file, files.Keys, name);
      var s :| s in files.Keys && name(s) == file;
      assert s in kept.Keys;
    }
  }
}
