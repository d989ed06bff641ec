/** What pg_allowed_tables admits and which functions are denied, entry by entry
    (internal/connectors/postgres). */
module AllowList {
  import opened Strings
  import opened SqlTree
  import opened TableScope
  import opened TableAccess

  // ----- entries of the allow-list, as they are written

  /** An entry without the white space around it, in lower case. */
  function Entry(a: string): string { Lower(TrimSpace(a)) }

  /** An allow-list admits what its entries admit, and nothing more. */
  lemma ListIsUnion(allowed: seq<string>, r: TableRef)
    ensures Admitted(r, allowed) <==> exists a :: a in allowed && Admitted(r, [a])
  {
    forall a ensures Admitted(r, [a]) <==> EntryAdmits(Entry(a), r) {
      assert a in [a];
    }
  }

  lemma EmptyEntry(a: string, r: TableRef)
    requires Entry(a) == ""
    ensures !Admitted(r, [a])
  {
  }

  lemma StarEntry(a: string, r: TableRef)
    requires Entry(a) == "*" || Entry(a) == "*.*"
    ensures Admitted(r, [a])
  {
    assert a in [a];
  }

  lemma SuffixHasDot(e: string)
    requires HasSuffix(e, ".*")
    ensures '.' in e
  {
    assert e[|e| - 2] == e[|e| - 2..][0];
  }

  /** A bare name: that table without a schema or in public, and in no other schema. */
  lemma BareEntry(a: string, r: TableRef)
    requires '.' !in Entry(a) && Entry(a) != "" && Entry(a) != "*"
    ensures Admitted(r, [a]) <==> r.name == Entry(a) && (r.schema == "" || r.schema == "public")
  {
    var e := Entry(a);
    assert a in [a];
    assert "*.*"[1] == '.' && "pg_catalog.*"[10] == '.' && ("pg_catalog." + r.name)[10] == '.';
    if HasSuffix(e, ".*") { SuffixHasDot(e); }
  }

  /** An unqualified system table, which lives in pg_catalog. */
  predicate SystemTable(r: TableRef) { r.schema == "" && HasPrefix(r.name, "pg_") }

  /** All tables of one schema; for pg_catalog also the unqualified system tables, and so
      the one whose own name ends the entry. */
  lemma SchemaEntry(a: string, s: string, r: TableRef)
    requires Entry(a) == s + ".*" && s != "*"
    ensures Admitted(r, [a]) <==>
      r.schema == s || (SystemTable(r) && (s == "pg_catalog" || s + ".*" == "pg_catalog." + r.name))
  {
    var e := Entry(a);
    assert a in [a];
    assert e[|e| - 2..] == ".*" && e[..|e| - 2] == s;
    EndsInStar(s, "*");
    EndsInStar(s, "pg_catalog");
    assert "*" + ".*" == "*.*" && "pg_catalog" + ".*" == "pg_catalog.*";
    assert |e| >= 2 && |"*"| == 1;
  }

  lemma EndsInStar(s: string, t: string)
    ensures s + ".*" == t + ".*" <==> s == t
  {
    if s + ".*" == t + ".*" { assert s == (s + ".*")[..|s|] == (t + ".*")[..|t|] == t; }
  }

  /** One table of one schema: every way to read the text as schema and name; and the
      system table that pg_catalog.name stands for, without its schema too. */
  lemma TableEntry(a: string, r: TableRef)
    requires '.' in Entry(a) && !HasSuffix(Entry(a), ".*")
    ensures Admitted(r, [a]) <==>
      Entry(a) == r.schema + "." + r.name || (SystemTable(r) && Entry(a) == "pg_catalog." + r.name)
  {
    var e := Entry(a);
    assert a in [a];
    assert "*.*"[1..] == ".*" && HasSuffix("*.*", ".*");
    assert "pg_catalog.*"[10..] == ".*" && HasSuffix("pg_catalog.*", ".*");
  }

  // ----- denied functions

  lemma DeniedIgnoresCase(f: string, g: string)
    requires Lower(f) == Lower(g)
    ensures FuncDenied(f) == FuncDenied(g)
  {
  }

  /** What extends a denied name is denied. */
  lemma DeniedExtends(f: string, more: string)
    requires FuncDenied(f)
    ensures FuncDenied(f + more)
  {
    var p :| p in DENIED_FUNC_PREFIXES && HasPrefix(Lower(f), p);
    assert Lower(f + more)[..|f|] == Lower(f);
    assert Lower(f + more)[..|p|] == Lower(f)[..|p|];
  }

  /** Denied are the listed names, their extensions, and nothing else. */
  lemma DeniedMeans(f: string)
    ensures FuncDenied(f) <==> exists p, more :: p in DENIED_FUNC_PREFIXES && Lower(f) == p + more
  {
    if FuncDenied(f) {
      var p :| p in DENIED_FUNC_PREFIXES && HasPrefix(Lower(f), p);
      assert Lower(f) == p + Lower(f)[|p|..];
    }
    if p, more :| p in DENIED_FUNC_PREFIXES && Lower(f) == p + more {
      assert Lower(f)[..|p|] == p;
    }
  }
}
