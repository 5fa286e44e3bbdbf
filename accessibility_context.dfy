/**
  The accessibility preferences: a text size and a contrast mode, held as
  provider state and mirrored by effects into a key-value store, the body's
  class list, the root element's class list and the root's `data-text-size`
  attribute. The store and the two class lists are plain fields here. Values
  read back from the store are cast without any check, so both preferences
  are arbitrary strings rather than the three and two names the types list.
*/
module Accessibility {
  import opened Wrappers

  const DefaultTextSize: string := "medium"
  const DefaultContrastMode: string := "normal"
  const TextSizeKey: string := "textSize"
  const ContrastModeKey: string := "contrastMode"
  const HighContrastClass: string := "high-contrast"

  /** The three classes the text-size effect manages on the body. */
  const SizeClasses: set<string> := {"text-sm", "text-base", "text-lg"}

  /** The class the text-size switch adds for a size: none for an unknown size. */
  function SizeClassOf(size: string): (r: set<string>)
    ensures r <= SizeClasses && |r| <= 1
    ensures r == {} <==> size !in {"small", "medium", "large"}
  {
    if size == "small" then {"text-sm"}
    else if size == "medium" then {"text-base"}
    else if size == "large" then {"text-lg"}
    else {}
  }

  /** The body's classes after the text-size effect: the three size classes removed, then the size's own added. */
  function BodyAfter(body: set<string>, size: string): (after: set<string>)
    ensures after * SizeClasses == SizeClassOf(size)
    ensures after - SizeClasses == body - SizeClasses
  {
    (body - SizeClasses) + SizeClassOf(size)
  }

  /** The body carries exactly the size classes that belong to `size`. */
  predicate SizeClassesMatch(body: set<string>, size: string)
  {
    body * SizeClasses == SizeClassOf(size)
  }

  /**
    After the effect the body carries the size's class and no other size
    class, and every class outside the three is as it was.
  */
  lemma BodyAfterSetsSizeClass(body: set<string>, size: string)
    ensures SizeClassesMatch(BodyAfter(body, size), size)
    ensures forall c :: c !in SizeClasses ==> (c in BodyAfter(body, size) <==> c in body)
    ensures size == "small" ==> "text-sm" in BodyAfter(body, size) && "text-base" !in BodyAfter(body, size) && "text-lg" !in BodyAfter(body, size)
    ensures size == "medium" ==> "text-base" in BodyAfter(body, size) && "text-sm" !in BodyAfter(body, size) && "text-lg" !in BodyAfter(body, size)
    ensures size == "large" ==> "text-lg" in BodyAfter(body, size) && "text-sm" !in BodyAfter(body, size) && "text-base" !in BodyAfter(body, size)
    ensures size !in {"small", "medium", "large"} ==> BodyAfter(body, size) * SizeClasses == {}
  {
  }

  /** Running the effect again for a later size erases every trace of the earlier one. */
  lemma BodyAfterLastWins(body: set<string>, first: string, second: string)
    ensures BodyAfter(BodyAfter(body, first), second) == BodyAfter(body, second)
  {
    var a := BodyAfter(BodyAfter(body, first), second);
    var b := BodyAfter(body, second);
    forall c ensures c in a <==> c in b {
      if c in SizeClasses {
        assert c in a <==> c in SizeClassOf(second);
      }
    }
  }

  /** The effect leaves the body alone exactly when its size classes already match. */
  lemma BodyAfterFixpoint(body: set<string>, size: string)
    ensures BodyAfter(body, size) == body <==> SizeClassesMatch(body, size)
  {
    BodyAfterSetsSizeClass(body, size);
    if SizeClassesMatch(body, size) {
      forall c ensures c in BodyAfter(body, size) <==> c in body {
        if c in SizeClasses {
          assert c in body <==> c in body * SizeClasses;
        }
      }
    }
  }

  /** The root's classes after the contrast effect. */
  function RootAfter(root: set<string>, mode: string): (after: set<string>)
    ensures HighContrastClass in after <==> mode == "high"
    ensures after - {HighContrastClass} == root - {HighContrastClass}
  {
    if mode == "high" then root + {HighContrastClass} else root - {HighContrastClass}
  }

  /** The root carries the high-contrast class exactly for the mode "high". */
  predicate ContrastClassMatches(root: set<string>, mode: string)
  {
    HighContrastClass in root <==> mode == "high"
  }

  /**
    After the effect the high-contrast class is present iff the mode is
    "high"; a later run decides alone; and every other class is untouched.
  */
  lemma RootAfterSetsContrastClass(root: set<string>, mode: string, later: string)
    ensures ContrastClassMatches(RootAfter(root, mode), mode)
    ensures forall c :: c != HighContrastClass ==> (c in RootAfter(root, mode) <==> c in root)
    ensures RootAfter(RootAfter(root, mode), later) == RootAfter(root, later)
    ensures RootAfter(root, mode) == root <==> ContrastClassMatches(root, mode)
  {
    if mode == "high" && HighContrastClass !in root {
      assert HighContrastClass in RootAfter(root, mode);
    }
    if mode != "high" && HighContrastClass in root {
      assert HighContrastClass !in RootAfter(root, mode);
    }
  }

  /** The load effect: a stored value replaces the current one only when present and non-empty. */
  function Loaded(stored: map<string, string>, key: string, current: string): (r: string)
    ensures r == current || (key in stored && r == stored[key] && r != "")
    ensures (key in stored && stored[key] != "") ==> r == stored[key]
  {
    if key in stored && stored[key] != "" then stored[key] else current
  }

  /** An unknown stored size is taken as it is, and the body then carries no size class at all. */
  lemma UnknownStoredSizeIsKept(body: set<string>)
    ensures Loaded(map[TextSizeKey := "huge"], TextSizeKey, DefaultTextSize) == "huge"
    ensures BodyAfter(body, "huge") * SizeClasses == {}
  {
    BodyAfterSetsSizeClass(body, "huge");
  }

  /** Writing two distinct keys again erases the first writes. */
  lemma RewriteTwoKeys(m: map<string, string>, a: string, b: string, x: string, y: string, z: string)
    requires a != b
    ensures m[a := x][b := y][a := z] == m[a := z][b := y]
  {
  }

  /** A second write to a key replaces the first. */
  lemma RewriteKey(m: map<string, string>, b: string, y: string, z: string)
    ensures m[b := y][b := z] == m[b := z]
  {
  }

  /** The toggle's update function: "normal" becomes "high", and anything else "normal". */
  function Toggled(mode: string): (r: string)
    ensures r in {"normal", "high"}
  {
    if mode == "normal" then "high" else "normal"
  }

  /** The toggle always changes the mode, and undoes itself on the two named modes only. */
  lemma ToggledTwice(mode: string)
    ensures Toggled(mode) != mode
    ensures Toggled(Toggled(mode)) == mode <==> mode in {"normal", "high"}
  {
  }

  /** What the provider passes down. */
  datatype ContextValue = ContextValue(textSize: string, contrastMode: string)

  const OutsideProviderError: string := "useAccessibility must be used within an AccessibilityProvider"

  /** `useAccessibility`: the nearest provider's value, or the error it throws when there is none. */
  function UseAccessibility(provider: Option<ContextValue>): (r: Result<ContextValue>)
    ensures r.Failure? <==> provider.None?
    ensures r.Failure? ==> r.error == OutsideProviderError
    ensures r.Success? ==> r.value == provider.value
  {
    match provider
    case Some(value) => Success(value)
    case None => Failure(OutsideProviderError)
  }

  /** `AccessibilityProvider` with the document and the store it writes to. */
  class AccessibilityProvider {
    var textSize: string
    var contrastMode: string
    var storage: map<string, string>
    var bodyClasses: set<string>
    var rootClasses: set<string>
    /** The root element's `dataset.textSize`. */
    var datasetTextSize: Option<string>

    /** Between renders every effect has run for the current state. */
    ghost predicate Valid()
      reads this
    {
      && TextSizeKey in storage && storage[TextSizeKey] == textSize
      && ContrastModeKey in storage && storage[ContrastModeKey] == contrastMode
      && datasetTextSize == Some(textSize)
      && SizeClassesMatch(bodyClasses, textSize)
      && ContrastClassMatches(rootClasses, contrastMode)
    }

    /**
      Mounting over a store and a document: the first commit's effects run
      in order (the load effect reads the store, then the two mirroring
      effects write the defaults), and a second commit applies whatever the
      load effect changed.
    */
    constructor (stored: map<string, string>, body: set<string>, root: set<string>)
      ensures Valid()
      ensures textSize == Loaded(stored, TextSizeKey, DefaultTextSize)
      ensures contrastMode == Loaded(stored, ContrastModeKey, DefaultContrastMode)
      ensures storage == stored[TextSizeKey := textSize][ContrastModeKey := contrastMode]
      ensures bodyClasses == BodyAfter(body, textSize)
      ensures rootClasses == RootAfter(root, contrastMode)
    {
      textSize := DefaultTextSize;
      contrastMode := DefaultContrastMode;
      storage := stored;
      bodyClasses := body;
      rootClasses := root;
      datasetTextSize := None;
      new;
      var savedSize := Loaded(storage, TextSizeKey, textSize);
      var savedMode := Loaded(storage, ContrastModeKey, contrastMode);
      Commit();
      SetTextSize(savedSize);
      SetContrastMode(savedMode);
      BodyAfterLastWins(body, DefaultTextSize, savedSize);
      RootAfterSetsContrastClass(root, DefaultContrastMode, savedMode);
      RewriteTwoKeys(stored, TextSizeKey, ContrastModeKey, DefaultTextSize, DefaultContrastMode, savedSize);
      RewriteKey(stored[TextSizeKey := savedSize], ContrastModeKey, DefaultContrastMode, savedMode);
    }

    /** Both mirroring effects, in their declaration order, as after a commit that changed both values. */
    method Commit()
      modifies this
      ensures Valid()
      ensures storage == old(storage)[TextSizeKey := textSize][ContrastModeKey := contrastMode]
      ensures bodyClasses == BodyAfter(old(bodyClasses), textSize)
      ensures rootClasses == RootAfter(old(rootClasses), contrastMode)
      ensures textSize == old(textSize) && contrastMode == old(contrastMode)
    {
      ApplyTextSize();
      ApplyContrastMode();
    }

    /** The text-size effect. */
    method ApplyTextSize()
      modifies this
      ensures datasetTextSize == Some(textSize)
      ensures storage == old(storage)[TextSizeKey := textSize]
      ensures bodyClasses == BodyAfter(old(bodyClasses), textSize)
      ensures SizeClassesMatch(bodyClasses, textSize)
      ensures textSize == old(textSize) && contrastMode == old(contrastMode) && rootClasses == old(rootClasses)
    {
      datasetTextSize := Some(textSize);
      storage := storage[TextSizeKey := textSize];
      BodyAfterSetsSizeClass(bodyClasses, textSize);
      bodyClasses := BodyAfter(bodyClasses, textSize);
    }

    /** The contrast effect. */
    method ApplyContrastMode()
      modifies this
      ensures rootClasses == RootAfter(old(rootClasses), contrastMode)
      ensures ContrastClassMatches(rootClasses, contrastMode)
      ensures storage == old(storage)[ContrastModeKey := contrastMode]
      ensures textSize == old(textSize) && contrastMode == old(contrastMode)
      ensures bodyClasses == old(bodyClasses) && datasetTextSize == old(datasetTextSize)
    {
      RootAfterSetsContrastClass(rootClasses, contrastMode, contrastMode);
      if contrastMode == "high" {
        rootClasses := rootClasses + {HighContrastClass};
      } else {
        rootClasses := rootClasses - {HighContrastClass};
      }
      storage := storage[ContrastModeKey := contrastMode];
    }

    /**
      `setTextSize` and the commit after it: the text-size effect runs when
      the size changed, and the contrast state is untouched.
    */
    method SetTextSize(size: string)
      requires Valid()
      modifies this
      ensures Valid() && textSize == size
      ensures storage == old(storage)[TextSizeKey := size]
      ensures bodyClasses == BodyAfter(old(bodyClasses), size)
      ensures contrastMode == old(contrastMode) && rootClasses == old(rootClasses)
    {
      BodyAfterFixpoint(bodyClasses, textSize);
      if size != textSize {
        textSize := size;
        ApplyTextSize();
      }
    }

    /**
      `setContrastMode` and the commit after it: the contrast effect runs
      when the mode changed, and the text-size state is untouched.
    */
    method SetContrastMode(mode: string)
      requires Valid()
      modifies this
      ensures Valid() && contrastMode == mode
      ensures storage == old(storage)[ContrastModeKey := mode]
      ensures rootClasses == RootAfter(old(rootClasses), mode)
      ensures textSize == old(textSize) && bodyClasses == old(bodyClasses) && datasetTextSize == old(datasetTextSize)
    {
      RootAfterSetsContrastClass(rootClasses, contrastMode, contrastMode);
      if mode != contrastMode {
        contrastMode := mode;
        ApplyContrastMode();
      }
    }

    /** `toggleContrastMode`: a functional update with `Toggled`, then the contrast effect. */
    method ToggleContrastMode()
      requires Valid()
      modifies this
      ensures Valid() && contrastMode == Toggled(old(contrastMode))
      ensures storage == old(storage)[ContrastModeKey := contrastMode]
      ensures rootClasses == RootAfter(old(rootClasses), contrastMode)
      ensures textSize == old(textSize) && bodyClasses == old(bodyClasses) && datasetTextSize == old(datasetTextSize)
    {
      SetContrastMode(Toggled(contrastMode));
    }

    /** The value the provider passes down. */
    function Value(): (v: ContextValue)
      reads this
      ensures v.textSize == textSize && v.contrastMode == contrastMode
    {
      ContextValue(textSize, contrastMode)
    }
  }

  /** Toggling twice from a named mode restores the mode, the store and the root's classes. */
  method ToggleTwiceRestores(p: AccessibilityProvider)
    requires p.Valid() && p.contrastMode in {"normal", "high"}
    modifies p
    ensures p.Valid()
    ensures p.contrastMode == old(p.contrastMode) && p.storage == old(p.storage)
    ensures p.rootClasses == old(p.rootClasses) && p.bodyClasses == old(p.bodyClasses)
  {
    ToggledTwice(p.contrastMode);
    RootAfterSetsContrastClass(p.rootClasses, Toggled(p.contrastMode), p.contrastMode);
    p.ToggleContrastMode();
    p.ToggleContrastMode();
  }
}
