/**
 * The records of ArbolBinario.cpp and Avanze_ABR.cpp and the shape that the
 * records reachable from the root keep.
 *
 * Every `Nodo*` of the program is a handle (`Ref`) into an arena `nodos`: the
 * pointer fields `padre`, `izq` and `der` become optional handles, `NULL` is
 * `None`, `new Nodo()` takes a handle never used before and `delete` removes
 * the handle from the arena. The nodes reachable from `raiz` (the members)
 * form the tree; the arena may besides hold records that are not in the
 * tree, as the `nueva` node of `anadirPersona` is before it is inserted.
 *
 * The shape is stated on plain values so that each edit of the tree can be
 * shown to keep it by a lemma about values.
 */
module Arena {

  datatype Option<T> = None | Some(value: T)

  /** A handle into the arena: the model of a non-null `Nodo*`. */
  type Ref = nat

  /** struct Nodo: one person, with a back-pointer and two child slots. */
  datatype Nodo = Nodo(id: string, nombre: string, apellido: string,
                       padre: Option<Ref>, izq: Option<Ref>, der: Option<Ref>)

  /** A fresh record: `new Nodo()` with its strings read in and every pointer NULL. */
  function Suelto(id: string, nombre: string, apellido: string): (v: Nodo)
    ensures v.id == id && v.nombre == nombre && v.apellido == apellido
    ensures v.padre.None? && v.izq.None? && v.der.None?
  {
    Nodo(id, nombre, apellido, None, None, None)
  }

  /**
   * The ghost shape of a tree: the handles that hang from the root, the depth
   * of each (the root has depth 0) and a bound above every depth, which gives
   * the downward walks their termination measure.
   */
  datatype Forma = Forma(miembros: set<Ref>, prof: map<Ref, nat>, cota: nat)

  // -----------------------------------------------------------------------
  // The shape of the tree
  // -----------------------------------------------------------------------

  /**
   * The downward shape of a tree whose nodes are miembros: members are
   * allocated, each child slot of a member holds a member one level deeper,
   * and all depths are below cota. This is all that the walks and the search
   * need.
   */
  ghost predicate FormaEn(nodos: map<Ref, Nodo>, miembros: set<Ref>, prof: map<Ref, nat>, cota: nat)
  {
    && miembros <= nodos.Keys
    && miembros <= prof.Keys
    && (forall r {:trigger prof[r]} :: r in miembros ==> prof[r] < cota)
    && (forall r {:trigger nodos[r].izq} :: r in miembros && nodos[r].izq.Some? ==>
          nodos[r].izq.value in miembros && prof[nodos[r].izq.value] == prof[r] + 1)
    && (forall r {:trigger nodos[r].der} :: r in miembros && nodos[r].der.Some? ==>
          nodos[r].der.value in miembros && prof[nodos[r].der.value] == prof[r] + 1)
  }

  /** An empty tree has no members; otherwise the root is a parentless member at depth 0. */
  ghost predicate RaizEn(nodos: map<Ref, Nodo>, raiz: Option<Ref>, miembros: set<Ref>, prof: map<Ref, nat>)
    requires miembros <= nodos.Keys && miembros <= prof.Keys
  {
    && (raiz.None? ==> miembros == {})
    && (raiz.Some? ==> raiz.value in miembros && nodos[raiz.value].padre.None? && prof[raiz.value] == 0)
  }

  /**
   * The two slots of a member never hold the same child, and the child in a
   * slot has its padre pointing back.
   */
  ghost predicate HijosEn(nodos: map<Ref, Nodo>, miembros: set<Ref>)
    requires miembros <= nodos.Keys
  {
    && (forall r {:trigger nodos[r].izq} :: r in miembros && nodos[r].izq.Some? ==>
          && nodos[r].izq != nodos[r].der
          && nodos[r].izq.value in nodos && nodos[nodos[r].izq.value].padre == Some(r))
    && (forall r {:trigger nodos[r].der} :: r in miembros && nodos[r].der.Some? ==>
          nodos[r].der.value in nodos && nodos[nodos[r].der.value].padre == Some(r))
  }

  /**
   * The padre of a member is a member one level up that holds it in one of
   * its slots; only the root has no padre.
   */
  ghost predicate PadresEn(nodos: map<Ref, Nodo>, raiz: Option<Ref>, miembros: set<Ref>, prof: map<Ref, nat>)
    requires miembros <= nodos.Keys && miembros <= prof.Keys
  {
    forall r {:trigger nodos[r].padre} :: r in miembros ==>
      match nodos[r].padre
      case None => raiz == Some(r)
      case Some(p) => p in miembros && prof[r] == prof[p] + 1 && (nodos[p].izq == Some(r) || nodos[p].der == Some(r))
  }

  /**
   * The shape invariant: the downward shape, the root, and child slots and
   * back-pointers that agree in both directions.
   */
  ghost predicate ValidoEn(nodos: map<Ref, Nodo>, raiz: Option<Ref>,
                           miembros: set<Ref>, prof: map<Ref, nat>, cota: nat)
  {
    && FormaEn(nodos, miembros, prof, cota)
    && RaizEn(nodos, raiz, miembros, prof)
    && HijosEn(nodos, miembros)
    && PadresEn(nodos, raiz, miembros, prof)
  }

  /** All members carry distinct ids. */
  ghost predicate IdsDistintosEn(nodos: map<Ref, Nodo>, miembros: set<Ref>)
    requires miembros <= nodos.Keys
  {
    forall r, s {:trigger nodos[r].id, nodos[s].id} :: r in miembros && s in miembros && r != s ==> nodos[r].id != nodos[s].id
  }

  // -----------------------------------------------------------------------
  // The shape, seen through a Forma
  // -----------------------------------------------------------------------

  /** The downward shape of the tree described by f. */
  ghost predicate Bien(nodos: map<Ref, Nodo>, f: Forma)
  {
    FormaEn(nodos, f.miembros, f.prof, f.cota)
  }

  /** The shape invariant of the tree rooted at raiz and described by f. */
  ghost predicate Valido(nodos: map<Ref, Nodo>, raiz: Option<Ref>, f: Forma)
  {
    ValidoEn(nodos, raiz, f.miembros, f.prof, f.cota)
  }

  /** All ids in the tree are distinct. */
  ghost predicate IdsUnicos(nodos: map<Ref, Nodo>, f: Forma)
    requires f.miembros <= nodos.Keys
  {
    IdsDistintosEn(nodos, f.miembros)
  }

  /** No member of the tree carries this id. */
  ghost predicate IdLibre(nodos: map<Ref, Nodo>, f: Forma, id: string)
    requires f.miembros <= nodos.Keys
  {
    forall r :: r in f.miembros ==> nodos[r].id != id
  }

  /** f with nueva added one level below the member p. */
  ghost function Colgado(f: Forma, nueva: Ref, p: Ref): Forma
    requires p in f.prof
  {
    Forma(f.miembros + {nueva}, f.prof[nueva := f.prof[p] + 1], f.cota + 1)
  }

  /** f without the member x. */
  ghost function Sin(f: Forma, x: Ref): Forma
  {
    Forma(f.miembros - {x}, f.prof, f.cota)
  }

  /** The shape of a tree that is just the root h. */
  ghost function SoloRaiz(f: Forma, h: Ref): Forma
  {
    Forma({h}, f.prof[h := 0], 1)
  }

  /** The shape of the empty tree. */
  ghost function Vacia(f: Forma): Forma
  {
    Forma({}, f.prof, f.cota)
  }

  // -----------------------------------------------------------------------
  // Each edit of the tree keeps the shape
  // -----------------------------------------------------------------------

  /** Writing a record twice under h keeps only the second write. */
  lemma Reescrito(nodos: map<Ref, Nodo>, h: Ref, a: Nodo, b: Nodo)
    ensures nodos[h := a][h := b] == nodos[h := b]
  {
  }

  /** A record written under h before a write under k is lost when h is written again. */
  lemma ReescritoTrasOtro(nodos: map<Ref, Nodo>, h: Ref, k: Ref, a: Nodo, b: Nodo, c: Nodo)
    ensures nodos[h := a][k := b][h := c] == nodos[k := b][h := c]
  {
  }

  /** Deleting a record stored under a handle that was unused restores the arena. */
  lemma Descartado(nodos: map<Ref, Nodo>, h: Ref, a: Nodo, b: Nodo)
    requires h !in nodos
    ensures nodos[h := a] - {h} == nodos
    ensures nodos[h := a][h := b] - {h} == nodos
  {
  }

  /** Distinct ids depend on nothing but the ids of the members. */
  lemma MismosIds(nodos: map<Ref, Nodo>, nodos2: map<Ref, Nodo>, miembros: set<Ref>)
    requires miembros <= nodos.Keys && IdsDistintosEn(nodos, miembros)
    requires forall r :: r in miembros ==> r in nodos2 && nodos2[r].id == nodos[r].id
    ensures IdsDistintosEn(nodos2, miembros)
  {
  }

  /** A record whose id no member carries can join with the ids distinct. */
  lemma IdNuevo(nodos: map<Ref, Nodo>, miembros: set<Ref>, x: Ref)
    requires miembros <= nodos.Keys && IdsDistintosEn(nodos, miembros) && x in nodos
    requires forall r :: r in miembros ==> nodos[r].id != nodos[x].id
    ensures IdsDistintosEn(nodos, miembros + {x})
  {
  }

  /**
   * Records outside the tree may be added, changed or dropped: the invariant
   * and the distinct ids of the members are kept.
   */
  lemma FueraDelArbol(nodos: map<Ref, Nodo>, nodos2: map<Ref, Nodo>, raiz: Option<Ref>, f: Forma)
    requires Valido(nodos, raiz, f)
    requires forall r :: r in f.miembros ==> r in nodos2 && nodos2[r] == nodos[r]
    ensures Valido(nodos2, raiz, f)
    ensures IdsUnicos(nodos, f) ==> IdsUnicos(nodos2, f)
  {
    var miembros := f.miembros;
    assert FormaEn(nodos2, miembros, f.prof, f.cota) by {
      forall r | r in miembros ensures nodos2[r] == nodos[r] { }
    }
    forall r, c | r in miembros && c in nodos2 && nodos2[r].izq == Some(c)
      ensures nodos2[c].padre == Some(r)
    {
      assert nodos[r].izq == Some(c) && c in miembros;
    }
    forall r, c | r in miembros && c in nodos2 && nodos2[r].der == Some(c)
      ensures nodos2[c].padre == Some(r)
    {
      assert nodos[r].der == Some(c) && c in miembros;
    }
    forall r, p | r in miembros && p in miembros && nodos2[r].padre == Some(p)
      ensures nodos2[p].izq == Some(r) || nodos2[p].der == Some(r)
    {
      assert nodos[r].padre == Some(p) && nodos2[p] == nodos[p];
    }
    if IdsDistintosEn(nodos, miembros) {
      MismosIds(nodos, nodos2, miembros);
    }
  }

  /**
   * nodos2 is nodos after `nueva->padre = p` and then `p->izq = nueva`
   * (izquierdo) or `p->der = nueva`.
   */
  ghost predicate Enganche(nodos: map<Ref, Nodo>, nodos2: map<Ref, Nodo>, nueva: Ref, p: Ref, izquierdo: bool)
  {
    && nueva in nodos && p in nodos && nueva != p
    && nodos2.Keys == nodos.Keys
    && nodos2[nueva] == nodos[nueva].(padre := Some(p))
    && nodos2[p] == (if izquierdo then nodos[p].(izq := Some(nueva)) else nodos[p].(der := Some(nueva)))
    && (forall r :: r in nodos && r != nueva && r != p ==> nodos2[r] == nodos[r])
  }

  /** Hanging nueva under p keeps the downward shape, with nueva one level below p. */
  lemma EngancharForma(nodos: map<Ref, Nodo>, nodos2: map<Ref, Nodo>, f: Forma, nueva: Ref, p: Ref, izquierdo: bool)
    requires FormaEn(nodos, f.miembros, f.prof, f.cota) && Enganche(nodos, nodos2, nueva, p, izquierdo)
    requires p in f.miembros && nueva !in f.miembros
    requires nodos[nueva].izq.None? && nodos[nueva].der.None?
    ensures Bien(nodos2, Colgado(f, nueva, p))
  {
    var miembros, prof := f.miembros, f.prof;
    var m2, f2 := miembros + {nueva}, prof[nueva := prof[p] + 1];
    assert Colgado(f, nueva, p) == Forma(m2, f2, f.cota + 1);
    forall r | r in m2 && nodos2[r].izq.Some?
      ensures nodos2[r].izq.value in m2 && f2[nodos2[r].izq.value] == f2[r] + 1
    {
      if r != p {
        assert nodos2[r] == nodos[r] && nodos[r].izq.value in miembros;
      }
    }
    forall r | r in m2 && nodos2[r].der.Some?
      ensures nodos2[r].der.value in m2 && f2[nodos2[r].der.value] == f2[r] + 1
    {
      if r != p {
        assert nodos2[r] == nodos[r] && nodos[r].der.value in miembros;
      }
    }
  }

  /** Hanging nueva into a free slot of p keeps the slots and back-pointers in agreement. */
  lemma EngancharHijos(nodos: map<Ref, Nodo>, nodos2: map<Ref, Nodo>, f: Forma, nueva: Ref, p: Ref, izquierdo: bool)
    requires FormaEn(nodos, f.miembros, f.prof, f.cota) && HijosEn(nodos, f.miembros)
    requires Enganche(nodos, nodos2, nueva, p, izquierdo)
    requires p in f.miembros && nueva !in f.miembros
    requires nodos[nueva].izq.None? && nodos[nueva].der.None?
    requires if izquierdo then nodos[p].izq.None? else nodos[p].der.None?
    ensures Colgado(f, nueva, p).miembros <= nodos2.Keys
    ensures HijosEn(nodos2, Colgado(f, nueva, p).miembros)
  {
    var miembros := f.miembros;
    var m2 := miembros + {nueva};
    assert Colgado(f, nueva, p).miembros == m2;
    forall r | r in m2 && nodos2[r].izq.Some?
      ensures nodos2[r].izq != nodos2[r].der
    {
      if r != p && r != nueva {
        assert nodos2[r] == nodos[r];
      } else if r == p {
        assert nodos[p].izq.Some? ==> nodos[p].izq.value in miembros;
        assert nodos[p].der.Some? ==> nodos[p].der.value in miembros;
      }
    }
    forall r, c | r in m2 && c in nodos2 && nodos2[r].izq == Some(c)
      ensures nodos2[c].padre == Some(r)
    {
      if r != p {
        assert r != nueva && nodos2[r] == nodos[r];
        assert c in miembros && c != nueva;
        assert nodos2[c] == nodos[c] || c == p;
      } else if c != nueva {
        assert nodos[p].izq == Some(c) && c in miembros;
      }
    }
    forall r, c | r in m2 && c in nodos2 && nodos2[r].der == Some(c)
      ensures nodos2[c].padre == Some(r)
    {
      if r != p {
        assert r != nueva && nodos2[r] == nodos[r];
        assert c in miembros && c != nueva;
        assert nodos2[c] == nodos[c] || c == p;
      } else if c != nueva {
        assert nodos[p].der == Some(c) && c in miembros;
      }
    }
  }

  /** Hanging nueva under p keeps every padre pointing at a member that holds it. */
  lemma EngancharPadres(nodos: map<Ref, Nodo>, nodos2: map<Ref, Nodo>, raiz: Option<Ref>, f: Forma,
                        nueva: Ref, p: Ref, izquierdo: bool)
    requires f.miembros <= nodos.Keys && f.miembros <= f.prof.Keys && PadresEn(nodos, raiz, f.miembros, f.prof)
    requires Enganche(nodos, nodos2, nueva, p, izquierdo)
    requires p in f.miembros && nueva !in f.miembros
    requires if izquierdo then nodos[p].izq.None? else nodos[p].der.None?
    ensures Colgado(f, nueva, p).miembros <= nodos2.Keys && Colgado(f, nueva, p).miembros <= Colgado(f, nueva, p).prof.Keys
    ensures PadresEn(nodos2, raiz, Colgado(f, nueva, p).miembros, Colgado(f, nueva, p).prof)
  {
    var miembros, prof := f.miembros, f.prof;
    var m2, f2 := miembros + {nueva}, prof[nueva := prof[p] + 1];
    assert Colgado(f, nueva, p) == Forma(m2, f2, f.cota + 1);
    forall r | r in m2
      ensures match nodos2[r].padre
              case None => raiz == Some(r)
              case Some(a) => a in m2 && f2[r] == f2[a] + 1 && (nodos2[a].izq == Some(r) || nodos2[a].der == Some(r))
    {
      if r != nueva {
        assert nodos2[r].padre == nodos[r].padre;
        match nodos[r].padre
        case None =>
        case Some(a) =>
          assert a in miembros && (nodos[a].izq == Some(r) || nodos[a].der == Some(r));
          assert a != p ==> nodos2[a] == nodos[a];
      }
    }
    assert PadresEn(nodos2, raiz, m2, f2);
  }

  /**
   * Hanging a childless record that is outside the tree into a free slot of
   * member p, with its padre set to p, yields a valid tree with one more
   * member, one level below p. If its id is new, the ids stay distinct.
   */
  lemma Enganchar(nodos: map<Ref, Nodo>, nodos2: map<Ref, Nodo>, raiz: Option<Ref>, f: Forma,
                  nueva: Ref, p: Ref, izquierdo: bool)
    requires Valido(nodos, raiz, f)
    requires Enganche(nodos, nodos2, nueva, p, izquierdo)
    requires p in f.miembros && nueva !in f.miembros
    requires nodos[nueva].izq.None? && nodos[nueva].der.None?
    requires if izquierdo then nodos[p].izq.None? else nodos[p].der.None?
    ensures Valido(nodos2, raiz, Colgado(f, nueva, p))
    ensures IdsUnicos(nodos, f) && IdLibre(nodos, f, nodos[nueva].id) ==> IdsUnicos(nodos2, Colgado(f, nueva, p))
  {
    var miembros, prof, cota := f.miembros, f.prof, f.cota;
    var m2, f2 := miembros + {nueva}, prof[nueva := prof[p] + 1];
    EngancharForma(nodos, nodos2, f, nueva, p, izquierdo);
    EngancharHijos(nodos, nodos2, f, nueva, p, izquierdo);
    EngancharPadres(nodos, nodos2, raiz, f, nueva, p, izquierdo);
    assert RaizEn(nodos2, raiz, Colgado(f, nueva, p).miembros, Colgado(f, nueva, p).prof) by {
      if raiz.Some? {
        assert raiz.value != nueva;
        assert nodos2[raiz.value].padre == nodos[raiz.value].padre;
      }
    }
    if IdsUnicos(nodos, f) && IdLibre(nodos, f, nodos[nueva].id) {
      EngancharIds(nodos, nodos2, miembros, nueva, p, izquierdo);
    }
  }

  /** Hanging a record whose id no member carries keeps the ids distinct. */
  lemma EngancharIds(nodos: map<Ref, Nodo>, nodos2: map<Ref, Nodo>, miembros: set<Ref>,
                     nueva: Ref, p: Ref, izquierdo: bool)
    requires miembros <= nodos.Keys && Enganche(nodos, nodos2, nueva, p, izquierdo)
    requires IdsDistintosEn(nodos, miembros) && (forall r :: r in miembros ==> nodos[r].id != nodos[nueva].id)
    ensures IdsDistintosEn(nodos2, miembros + {nueva})
  {
    IdNuevo(nodos, miembros, nueva);
    forall r | r in miembros + {nueva}
      ensures r in nodos2 && nodos2[r].id == nodos[r].id
    {
    }
    MismosIds(nodos, nodos2, miembros + {nueva});
  }

  /**
   * nodos2 is nodos after `if (p->izq == x) p->izq = NULL; else if (p->der
   * == x) p->der = NULL;` and `delete x`.
   */
  ghost predicate Desenganche(nodos: map<Ref, Nodo>, nodos2: map<Ref, Nodo>, x: Ref, p: Ref)
  {
    && x in nodos && p in nodos && x != p
    && nodos2.Keys == nodos.Keys - {x}
    && nodos2[p] == (if nodos[p].izq == Some(x) then nodos[p].(izq := None)
                     else if nodos[p].der == Some(x) then nodos[p].(der := None)
                     else nodos[p])
    && (forall r :: r in nodos2 && r != p ==> nodos2[r] == nodos[r])
  }

  /**
   * Unhooking a childless member x from its padre p and dropping its record
   * keeps the downward shape of the other members.
   */
  lemma DesengancharForma(nodos: map<Ref, Nodo>, nodos2: map<Ref, Nodo>, miembros: set<Ref>,
                          prof: map<Ref, nat>, cota: nat, x: Ref, p: Ref)
    requires FormaEn(nodos, miembros, prof, cota) && HijosEn(nodos, miembros)
    requires Desenganche(nodos, nodos2, x, p)
    requires x in miembros && p in miembros
    requires forall r :: r in miembros && r != p ==> nodos[r].izq != Some(x) && nodos[r].der != Some(x)
    ensures FormaEn(nodos2, miembros - {x}, prof, cota)
  {
    var m2 := miembros - {x};
    forall r | r in m2 && nodos2[r].izq.Some?
      ensures nodos2[r].izq.value in m2 && prof[nodos2[r].izq.value] == prof[r] + 1
    {
      assert nodos2[r].izq == nodos[r].izq;
    }
    forall r | r in m2 && nodos2[r].der.Some?
      ensures nodos2[r].der.value in m2 && prof[nodos2[r].der.value] == prof[r] + 1
    {
      assert nodos2[r].der == nodos[r].der;
      assert nodos[r].der != Some(x);
    }
  }

  /** Unhooking x keeps the slots and back-pointers of the other members in agreement. */
  lemma DesengancharHijos(nodos: map<Ref, Nodo>, nodos2: map<Ref, Nodo>, miembros: set<Ref>,
                          prof: map<Ref, nat>, cota: nat, x: Ref, p: Ref)
    requires FormaEn(nodos, miembros, prof, cota) && HijosEn(nodos, miembros)
    requires Desenganche(nodos, nodos2, x, p)
    requires x in miembros && p in miembros
    requires forall r :: r in miembros && r != p ==> nodos[r].izq != Some(x) && nodos[r].der != Some(x)
    ensures HijosEn(nodos2, miembros - {x})
  {
    var m2 := miembros - {x};
    forall r | r in m2 && nodos2[r].izq.Some?
      ensures nodos2[r].izq != nodos2[r].der
    {
      assert nodos2[r].izq == nodos[r].izq;
    }
    forall r, c | r in m2 && c in nodos2 && nodos2[r].izq == Some(c)
      ensures nodos2[c].padre == Some(r)
    {
      assert nodos[r].izq == Some(c) && c in miembros;
      assert nodos[c].padre == Some(r);
    }
    forall r, c | r in m2 && c in nodos2 && nodos2[r].der == Some(c)
      ensures nodos2[c].padre == Some(r)
    {
      assert nodos[r].der == Some(c) && c in miembros;
      assert nodos[c].padre == Some(r);
    }
  }

  /** Unhooking a childless x keeps every other padre pointing at a member that holds it. */
  lemma DesengancharPadres(nodos: map<Ref, Nodo>, nodos2: map<Ref, Nodo>, raiz: Option<Ref>, miembros: set<Ref>,
                           prof: map<Ref, nat>, cota: nat, x: Ref, p: Ref)
    requires FormaEn(nodos, miembros, prof, cota) && HijosEn(nodos, miembros)
    requires PadresEn(nodos, raiz, miembros, prof)
    requires Desenganche(nodos, nodos2, x, p)
    requires x in miembros && p in miembros && nodos[x].izq.None? && nodos[x].der.None?
    ensures PadresEn(nodos2, raiz, miembros - {x}, prof)
  {
    var m2 := miembros - {x};
    forall r | r in m2
      ensures match nodos2[r].padre
              case None => raiz == Some(r)
              case Some(a) => a in m2 && prof[r] == prof[a] + 1
    {
      assert nodos2[r].padre == nodos[r].padre;
    }
    forall r, a | r in m2 && a in m2 && nodos2[r].padre == Some(a)
      ensures nodos2[a].izq == Some(r) || nodos2[a].der == Some(r)
    {
      assert nodos2[r].padre == nodos[r].padre;
      assert nodos[a].izq == Some(r) || nodos[a].der == Some(r);
    }
  }

  /**
   * Unhooking a childless member x that is not the root from its padre p,
   * and dropping its record, yields a valid tree without x; the ids stay
   * distinct.
   */
  lemma Desenganchar(nodos: map<Ref, Nodo>, nodos2: map<Ref, Nodo>, raiz: Option<Ref>, f: Forma, x: Ref, p: Ref)
    requires Valido(nodos, raiz, f)
    requires x in f.miembros && raiz != Some(x) && nodos[x].padre == Some(p)
    requires nodos[x].izq.None? && nodos[x].der.None?
    requires Desenganche(nodos, nodos2, x, p)
    ensures Valido(nodos2, raiz, Sin(f, x))
    ensures IdsUnicos(nodos, f) ==> IdsUnicos(nodos2, Sin(f, x))
  {
    var miembros, prof, cota := f.miembros, f.prof, f.cota;
    var m2 := miembros - {x};
    assert p in miembros;
    // no member other than p holds x: x's padre is p
    forall r | r in miembros && r != p
      ensures nodos[r].izq != Some(x) && nodos[r].der != Some(x)
    {
    }
    DesengancharForma(nodos, nodos2, miembros, prof, cota, x, p);
    DesengancharHijos(nodos, nodos2, miembros, prof, cota, x, p);
    DesengancharPadres(nodos, nodos2, raiz, miembros, prof, cota, x, p);
    assert RaizEn(nodos2, raiz, m2, prof) by {
      if raiz.Some? {
        assert raiz.value != p ==> nodos2[raiz.value] == nodos[raiz.value];
      }
    }
    if IdsDistintosEn(nodos, miembros) {
      forall r | r in m2
        ensures r in nodos2 && nodos2[r].id == nodos[r].id
      {
      }
      MismosIds(nodos, nodos2, m2);
    }
  }

  /** A parentless, childless record becomes the root of an empty tree. */
  lemma NuevaRaiz(nodos: map<Ref, Nodo>, f: Forma, nueva: Ref)
    requires Valido(nodos, None, f)
    requires nueva in nodos && nodos[nueva].padre.None?
    requires nodos[nueva].izq.None? && nodos[nueva].der.None?
    ensures Valido(nodos, Some(nueva), SoloRaiz(f, nueva))
    ensures IdsUnicos(nodos, SoloRaiz(f, nueva))
  {
  }

  /** Dropping the only member leaves a valid empty tree. */
  lemma SinRaiz(nodos: map<Ref, Nodo>, raiz: Option<Ref>, f: Forma, x: Ref)
    requires Valido(nodos, raiz, f)
    requires f.miembros == {x}
    ensures Valido(nodos - {x}, None, Vacia(f))
    ensures IdsUnicos(nodos - {x}, Vacia(f))
  {
  }
}
