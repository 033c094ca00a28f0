/** Guest login names: backend/controllers/guestUserController.js,
    generateGuestUsername. */
module Username {
  import opened Wrappers
  import opened Text

  /** `${baseUsername}_${adminEmail.split('@')[1].split('.')[0]}`. The
      source reads `.split('.')` of `undefined` when `adminEmail` has no
      '@', which throws; `None` stands for that exception. */
  function GenerateGuestUsername(adminEmail: string, baseUsername: string): (r: Option<string>)
    ensures r.None? <==> '@' !in adminEmail
    ensures r.Some? ==> |r.value| > |baseUsername| && r.value[..|baseUsername| + 1] == baseUsername + "_"
  {
    var parts := Split(adminEmail, '@');
    if |parts| < 2 then None
    else
      var domain := parts[1];
      Some(baseUsername + "_" + Split(domain, '.')[0])
  }

  /** `p` sits in `email` at `start` and runs up to the next '.', the next
      '@' or the end of the string. */
  predicate CutAt(email: string, start: nat, p: string) {
    && start + |p| <= |email|
    && email[start..start + |p|] == p
    && '.' !in p && '@' !in p
    && (start + |p| == |email| || email[start + |p|] == '.' || email[start + |p|] == '@')
  }

  /** The domain prefix of an address, stated without split: the text after
      the first '@', cut at the first '.' (or at a second '@'). */
  ghost predicate IsDomainPrefix(email: string, p: string) {
    exists i :: 0 <= i < |email| && email[i] == '@' && '@' !in email[..i] && CutAt(email, i + 1, p)
  }

  /** At a given position at most one text is cut. */
  lemma CutAtUnique(email: string, start: nat, p: string, q: string)
    requires CutAt(email, start, p) && CutAt(email, start, q)
    ensures p == q
  {
    if |p| < |q| {
      assert false;
    } else if |q| < |p| {
      assert false;
    }
  }

  /** In the text after the first '@', the piece before the next '@', cut
      at its first '.', is cut at position 0. */
  lemma CutOfDomain(d: string)
    ensures var domain := d[..IndexOf(d, '@')];
      CutAt(d, 0, domain[..IndexOf(domain, '.')])
  {
    var j := IndexOf(d, '@');
    var domain := d[..j];
    var k := IndexOf(domain, '.');
    var q := domain[..k];
    assert q == d[..k];
    assert d[0..|q|] == q;
    assert '@' !in q by {
      forall n | 0 <= n < k ensures q[n] != '@' {
        assert q[n] == d[n];
      }
    }
    if k < j {
      assert d[k] == domain[k];
    }
  }

  /** A cut found in a suffix is a cut of the whole string. */
  lemma CutAtShift(email: string, start: nat, p: string)
    requires start <= |email| && CutAt(email[start..], 0, p)
    ensures CutAt(email, start, p)
  {
    var d := email[start..];
    assert email[start..start + |p|] == d[0..|p|];
    if start + |p| < |email| {
      assert email[start + |p|] == d[|p|];
    }
  }

  /** The text the source derives is the domain prefix of the address. */
  lemma DerivedPrefixIsCut(adminEmail: string)
    requires '@' in adminEmail
    ensures var i := IndexOf(adminEmail, '@');
      CutAt(adminEmail, i + 1, Split(Split(adminEmail, '@')[1], '.')[0])
  {
    var i := IndexOf(adminEmail, '@');
    var d := adminEmail[i + 1..];
    SplitSecond(adminEmail, '@');
    var domain := Split(adminEmail, '@')[1];
    assert domain == d[..IndexOf(d, '@')];
    CutOfDomain(d);
    CutAtShift(adminEmail, i + 1, domain[..IndexOf(domain, '.')]);
  }

  /** generateGuestUsername yields `baseUsername + "_" + p` exactly when `p`
      is the domain prefix of the admin's address, so the name is
      determined by its inputs. */
  lemma {:induction false} UsernameIsBaseAndDomainPrefix(adminEmail: string, baseUsername: string, p: string)
    ensures GenerateGuestUsername(adminEmail, baseUsername) == Some(baseUsername + "_" + p)
        <==> IsDomainPrefix(adminEmail, p)
  {
    if '@' in adminEmail {
      var i := IndexOf(adminEmail, '@');
      var q := Split(Split(adminEmail, '@')[1], '.')[0];
      DerivedPrefixIsCut(adminEmail);
      assert '@' !in adminEmail[..i];
      assert IsDomainPrefix(adminEmail, q);
      var u := baseUsername + "_";
      if GenerateGuestUsername(adminEmail, baseUsername) == Some(u + p) {
        assert (u + q)[|u|..] == q && (u + p)[|u|..] == p;
      }
      if IsDomainPrefix(adminEmail, p) {
        var j :| 0 <= j < |adminEmail| && adminEmail[j] == '@' && '@' !in adminEmail[..j] && CutAt(adminEmail, j + 1, p);
        if j < i {
          assert false;
        } else if j > i {
          assert false;
        }
        CutAtUnique(adminEmail, i + 1, p, q);
      }
    }
  }

  /** The domain prefix of a@sub.example.com is sub. */
  lemma ExampleDomainPrefix(e: string)
    requires e == "a@sub.example.com"
    ensures IsDomainPrefix(e, "sub")
  {
    assert e[1] == '@' && e[..1] == "a" && e[2..5] == "sub" && e[5] == '.';
    assert CutAt(e, 2, "sub");
  }

  /** The address a@sub.example.com and base name bob give bob_sub. */
  lemma DerivationExample(e: string, b: string)
    requires e == "a@sub.example.com" && b == "bob"
    ensures GenerateGuestUsername(e, b) == Some(b + "_" + "sub")
  {
    ExampleDomainPrefix(e);
    UsernameIsBaseAndDomainPrefix(e, b, "sub");
  }
}
