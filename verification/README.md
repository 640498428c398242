# navis: CMTK transform algebra and neuron-list argument utilities, in Dafny

This project models two pieces of the navis neuron-analysis library as
immutable datatypes and pure functions, and proves properties about them.

**CMTK transforms (`navis/transforms/cmtk.py`).** A `CMTKtransform` holds
two parallel lists: registration paths and directions (`"forward"` or
`"inverse"`). Its operations are modelled in module `CmtkTransforms`:

- the constructor and its validation;
- `==` and `len`;
- negation, which swaps every direction and reverses the order;
- `append`;
- the `streamxform` argument vector (`regargs` and `make_args`).

Module `CmtkOutput` models `parse_cmtk_output`: the tool's stdout is split
into the rows ended by `" \n"`, and each row becomes a point of three
values or three fail values. Module `CmtkXform` models the argument handling
of `xform_cmtk`: the `inverse` flag(s) become directions, and paths become
transforms.

**Utilities (`navis/utils/misc.py`).**

- `NeuronMap` models the `map_neuronlist` decorator:
  - where the neuron input is found;
  - how `can_zip` and `must_zip` keyword arguments are split up per neuron;
  - the resulting plan of calls, one per neuron in list order, with
    `inplace` forced to `True` and the list copied when `inplace` is falsy.
- `NeuronLock` models the `lock_neuron` counter bracket.
- `Unpack` models `unpack_neurons` and the one-level flatten in
  `parse_objects`.
- `Url` models `make_url`.

Two modules support the others:

- `Errors` holds the Python exception kinds, `Result` and `Option`.
- `Strings` holds Python's one-character `split`/`join` and decimal
  integer rendering and parsing.

**Parameters standing in for code outside the model:**

- Float conversion of output tokens is a parameter, `parse: string -> Option<V>`.
- `urlencode` is a parameter.
- The wrapped function of `lock_neuron` is a parameter. It is given the
  subject and reports its outcome and the `_lock` value it leaves behind.
- The directory of the CMTK binaries is a parameter of `MakeArgs`. It is
  given as the text `str()` produces for that `pathlib.Path`.
- The function wrapped by `map_neuronlist` is not run. The model returns the
  list of calls it would receive.

`make_iterable` and `is_iterable` live in `navis/utils/iterables.py`, which
is not part of this model. They are modelled as follows:

- for the transform constructor: a single string becomes a one-element list,
  and a list is kept;
- for `map_neuronlist`: lists and neuron lists are iterable, and everything
  else (strings included) is a single value.

## Model

| member | source | states |
|---|---|---|
| CmtkTransforms.New | navis/transforms/cmtk.py:171-185 | The constructor succeeds exactly when every direction is "forward"/"inverse", the case below does not arise, and there is one direction per registration. A bad direction fails the assertion first. A single `pathlib.Path` with a one-element list of directions then raises `TypeError`, because `len(regs)` is taken on the path. Otherwise a length mismatch raises `ValueError`. The result is valid, keeps both lists as given, and runs `streamxform`. |
| CmtkTransforms.ListedDirectionWithPath | navis/transforms/cmtk.py:181-182 | One direction in a list is accepted with a single path given as a `str`, but raises `TypeError` with the same path as a `pathlib.Path`. One direction given as a `str` is accepted with either. |
| CmtkTransforms.NoBroadcast | navis/transforms/cmtk.py:181-185 | The rebinding of the local `directions` has no effect: one direction given for two registrations raises `ValueError`. |
| CmtkTransforms.Len | navis/transforms/cmtk.py:196-197 | `len()` is the number of registrations. It is also the number of directions when there is one per registration, and it is 0 exactly for an empty transform. |
| CmtkTransforms.Eq | navis/transforms/cmtk.py:187-194 | `==` is true exactly for another transform with the same registrations and directions, position by position; non-transforms are unequal. A registration given as a `str` never equals one given as a `pathlib.Path`. |
| CmtkTransforms.EqIgnoresThreads | navis/transforms/cmtk.py:187-194 | Equality does not look at the thread count. |
| CmtkTransforms.EqSymmetricTransitive | navis/transforms/cmtk.py:187-194 | Equality is symmetric and transitive. |
| CmtkTransforms.Negate | navis/transforms/cmtk.py:199-211 | Negation raises `KeyError` exactly when some direction is neither "forward" nor "inverse". Otherwise the length is kept and registration `i` is the original's `len-1-i`. Direction `i` is a valid direction different from the original's `len-1-i`. Command and threads are kept. |
| CmtkTransforms.NegateValid | navis/transforms/cmtk.py:199-211 | Negating a valid transform succeeds and gives a valid transform. |
| CmtkTransforms.NegateNegate | navis/transforms/cmtk.py:199-211 | Negation is an involution: negating twice gives back the same transform. |
| CmtkTransforms.RegargsOf | navis/transforms/cmtk.py:258-267 | The `regargs` list has one entry per registration plus one per "inverse" direction. |
| CmtkTransforms.RegargsRoundTrip | navis/transforms/cmtk.py:258-267 | Every registration's text appears in `regargs` in order, preceded by `--inverse` exactly when its direction is "inverse": reading the list back gives the registration texts and the directions. |
| CmtkTransforms.JoinPath | navis/transforms/cmtk.py:243 | `str(_cmtkbin / command)`: the command becomes the last segment, after the directory and one `/`. The empty path `.` adds nothing and the root adds only its `/`. The result is again the text of a normalised path. |
| CmtkTransforms.MakeArgs | navis/transforms/cmtk.py:239-256 | The vector starts with the binary path, the directory joined with the command as `pathlib` joins them. Next comes `--affine-only` exactly when affine-only is asked, otherwise `--`. The threads argument follows only when the thread count is truthy. `regargs` is the suffix, and the length is exactly 2 + threads + regargs. |
| CmtkTransforms.MakeArgsRoundTrip | navis/transforms/cmtk.py:239-267 | The argument vector determines the affine switch, the thread count (when set) and every registration's text with its direction. |
| CmtkTransforms.AppendAsWritten | navis/transforms/cmtk.py:269-293 | As written: transforms with the same command concatenate, and a differing command raises `ValueError`. A `str` path is added with any non-empty direction. Anything else raises `NotImplementedError`. |
| CmtkTransforms.AppendAsWrittenAcceptsBadDirection | navis/transforms/cmtk.py:287-291 | As written, appending a path with direction "sideways" makes a valid transform invalid; negating it then raises `KeyError`. |
| CmtkTransforms.Append | navis/transforms/cmtk.py:269-293 | `append` with the path's direction checked as in the constructor. Lengths add, registrations and directions concatenate in order, and command and threads are kept. A different command or a missing or bad direction fails. |
| CmtkTransforms.AppendValid | navis/transforms/cmtk.py:269-293 | Appending keeps a transform valid. |
| CmtkTransforms.NegateAppend | navis/transforms/cmtk.py:280-286 | `-(a.append(b))` equals `(-b).append(-a)`. |
| CmtkOutput.RowsOfOutput | navis/transforms/cmtk.py:353-354 | The pattern `(.*?) \n` finds one row per `" \n"`-terminated line, in order. |
| CmtkOutput.RowsConcat | navis/transforms/cmtk.py:353-354 | The rows of output made of complete lines followed by more output are the rows of the first part, then those of the rest. |
| CmtkOutput.LineWithoutSpaceSkipped | navis/transforms/cmtk.py:353-354 | A line whose newline is not preceded by a space yields no row. |
| CmtkOutput.TailSkipped | navis/transforms/cmtk.py:353-354 | Text without a newline yields no row, even when it ends in a space, so an unterminated last line after complete lines adds nothing to their rows. |
| CmtkOutput.ParseRow | navis/transforms/cmtk.py:356-362 | A row of exactly three space-separated tokens gives those three values converted, and raises `ValueError` when a conversion fails. Any other token count gives three fail values. |
| CmtkOutput.ParseRows | navis/transforms/cmtk.py:353-366 | One point per row, in order; it raises exactly when some row's conversion fails. |
| CmtkOutput.ParseOutput | navis/transforms/cmtk.py:321-366 | One point per row of the stdout, in order. A row of three tokens gives the three converted values, and any other row gives fail values. The call raises, always with `ValueError`, exactly when a token of some three-token row does not convert. |
| CmtkOutput.ParseOutputRoundTrip | navis/transforms/cmtk.py:321-366 | Output written for a list of points parses back to those points, converted, in order. |
| CmtkOutput.FailedRow | navis/transforms/cmtk.py:359-360 | A line with the `FAILED` flag after its three coordinates gives three fail values. |
| Strings.SplitJoin | navis/transforms/cmtk.py:356 | `row.split(' ')` recovers the tokens joined by single spaces, provided none holds a space. |
| Strings.ParseIntToString | navis/transforms/cmtk.py:250-251 | The decimal rendering of the thread count reads back as the same integer. |
| CmtkXform.DirectionOf | navis/transforms/cmtk.py:125 | `True` maps to "inverse" and `False` to "forward". |
| CmtkXform.Directions | navis/transforms/cmtk.py:122-125 | A single boolean is repeated once per transform; a list is mapped position by position. |
| CmtkXform.ResolveFrom | navis/transforms/cmtk.py:127-131 | The loop keeps transforms and turns a path at position `i` into a one-registration transform with direction `i`. The registration keeps its kind: a `str` stays a `str` and a `pathlib.Path` stays a path. It succeeds exactly when every entry gets through. Otherwise the first failing entry raises `TypeError` (not a transform or path) or `IndexError` (no direction). |
| CmtkXform.XformTransforms | navis/transforms/cmtk.py:120-131 | The transforms to chain, one per entry, as the loop builds them: transforms as given, and each `str` or `pathlib.Path` as a transform holding that same registration with its direction. It succeeds exactly when every entry gets through. |
| CmtkXform.BroadcastInverse | navis/transforms/cmtk.py:120-131 | With a single boolean, every path gets the direction it maps to, and only an entry that is neither transform nor path raises, with `TypeError`. |
| CmtkXform.InverseIsNegation | navis/transforms/cmtk.py:120-131 | For every list of paths, each given as a `str` or as a `pathlib.Path`, the transform a path gets with `inverse=True` is the negation of the one it gets with `inverse=False`. |
| CmtkXform.TransformsIgnoreInverse | navis/transforms/cmtk.py:127-131 | Entries that are already transforms are kept, whatever `inverse` says. |
| CmtkXform.PathKeepsKind | navis/transforms/cmtk.py:127-131 | The same text given as a `str` and as a `pathlib.Path` gives transforms with the same `regargs` that are nevertheless unequal under `==`. |
| NeuronMap.Locate | navis/utils/misc.py:111-128 | The neuron input is the first positional argument when there is one. Otherwise it is the value of the first of `x`, `neuron`, `neurons` present. It raises `ValueError` when that is `None` or when nothing is found, and it succeeds in every other case. |
| NeuronMap.Prepare | navis/utils/misc.py:131-148 | The neuron input is popped from args or kwargs. With an `inplace` parameter, `inplace` is popped, and the list is copied exactly when the resolved value is falsy. All other arguments are kept as given. |
| NeuronMap.ZipFromSpec | navis/utils/misc.py:150-182 | The zip loop raises exactly when an argument to split has a length other than n. Otherwise the shared arguments lose exactly the split ones, and call `i` gains value `i` of each. |
| NeuronMap.Zip | navis/utils/misc.py:150-182 | Starting from empty per-call maps, the same loop leaves shared = kwargs minus the split keys. Every per-call map has exactly the split keys, holding value `i`. |
| NeuronMap.MapNeuronList | navis/utils/misc.py:110-204 | The wrapper itself raises only `ValueError`, including when no neuron input is found. Exceptions of the wrapped function are not modelled, since it is not run. A non-list input is passed straight through. For a neuron list the wrapper succeeds exactly when every argument split up by the `can_zip` loop, and then every one split up by the `must_zip` loop, has one value per neuron. It then returns one call per neuron, in list order. Each call gets the positional arguments after the popped first one, or all of them when the list came as a keyword. The keyword the list came from is never passed again. Each call's keyword names are exactly the prepared ones (after popping the list and `inplace`), plus `inplace`, set to `True`, when the function declares it. Nothing is copied when the function has no `inplace` parameter. |
| NeuronMap.PerNeuronPlan | navis/utils/misc.py:150-200 | It succeeds exactly when both zipping loops find one value per neuron for every argument they split up; otherwise it raises `ValueError`. Then every call gets its neuron and the remaining positional arguments. Its keyword names are the prepared ones (each either split up or shared) plus `inplace` when declared, and `inplace` is `True`. |
| NeuronMap.CanZipSplits | navis/utils/misc.py:150-166 | An iterable `can_zip` argument of length other than n raises `ValueError`; otherwise call `i` receives value `i`. |
| NeuronMap.MustZipSplits | navis/utils/misc.py:168-182 | A non-`None` `must_zip` argument made iterable must have n values, otherwise the call raises `ValueError`; call `i` receives value `i`. |
| NeuronMap.UnzippedShared | navis/utils/misc.py:150-182 | An argument split by neither loop (absent from both lists, `None`, or a non-iterable `can_zip` argument) is passed unchanged to every call. |
| NeuronMap.NoRepeatedKeyword | navis/utils/misc.py:198-199 | The shared, `can_zip` and `must_zip` keyword sets of a call are pairwise disjoint, so no keyword is passed twice. |
| NeuronMap.CopiedUnlessInplace | navis/utils/misc.py:139-148 | The list is copied exactly when the function has `inplace` and the caller's value (else the default) is falsy. This holds whether the list came positionally or by keyword. |
| NeuronLock.LockedCall | navis/utils/misc.py:217-231 | With no positional argument the call raises `IndexError`. A neuron is handed over with `_lock` (unset reads 0) one higher. Afterwards the counter is set and has moved by exactly as much as the body moved it, whether the body returned or raised. The outcome is the body's own. Any other first argument is left as it is. |
| NeuronLock.LockRestored | navis/utils/misc.py:217-231 | When the body leaves the counter as it found it, the counter after the call equals the one before, on the return path and the exception path alike. |
| NeuronLock.NestedBalanced | navis/utils/misc.py:217-231 | A decorated balanced function is itself balanced, so nested locked calls restore the counter too. |
| Unpack.Unpack | navis/utils/misc.py:373-385 | A neuron gives itself and a neuron list gives its neurons. An unknown object raises `TypeError` when `raise_on_error` is set and gives nothing otherwise. A list succeeds exactly when no unknown object occurs anywhere inside it. On success the result is every neuron inside, at any depth, in order. |
| Unpack.UnpackAll | navis/utils/misc.py:375-377 | The members of a list are unpacked with the default, so the list unpacks exactly when every member is known; the only error is `TypeError`. On success the result is the neurons of each member, one member after the other. |
| Unpack.UnpackAllSingle | navis/utils/misc.py:375-377 | A one-member list unpacks exactly as its member does with `raise_on_error=True`. |
| Unpack.UnpackNested | navis/utils/misc.py:373-385 | Wrapping a list in another list does not change what it unpacks to. |
| Unpack.UnpackAllConcat | navis/utils/misc.py:375-377 | Unpacking a concatenation gives the concatenation of the neurons, in order, and raises exactly when one part does. |
| Unpack.UnpackConcat | navis/utils/misc.py:373-385 | The same, for a list of two lists. |
| Unpack.UnpackListTwice | navis/utils/misc.py:364-370 | `unpack_neurons([nl, nl])` gives the neurons of `nl` twice, in order: six for three. |
| Unpack.UnpackIdempotent | navis/utils/misc.py:373-385 | The list of neurons returned unpacks to itself. |
| Unpack.NestedUnknownRaises | navis/utils/misc.py:375-383 | `raise_on_error=False` spares an unknown object at the top level only; inside a list it raises `TypeError`. |
| Unpack.ParseObjects | navis/utils/misc.py:447-457 | A non-list becomes a one-element list, and a list without nested lists is kept as it is. |
| Unpack.ParseObjectsFlattens | navis/utils/misc.py:447-457 | The `any(...)` test only saves work: the result is always the one-level flatten. |
| Unpack.FlattenOnceConcat | navis/utils/misc.py:454-457 | The flatten distributes over concatenation, so the order of members and of nested members is kept. |
| Unpack.ParseObjectsNested | navis/utils/misc.py:447-457 | `[[a, b], c]` gives `[a, b, c]`. |
| Url.JoinOne | navis/utils/misc.py:535-538 | One loop step gives the URL, one `/` unless it already ends in one, then the argument with one leading `/` stripped, keeping every segment of it. The result is again an http(s) base URL. |
| Url.MakeUrl | navis/utils/misc.py:532-541 | The URL starts with the base, and `?` occurs exactly when there are GET parameters. In that case it is the joined path, `?` and the encoded query. Without GET parameters it is the joined path itself. |
| Url.JoinOneSegment | navis/utils/misc.py:535-538 | Joining an argument that does not end in `/` appends it after exactly one `/`, leaving a URL that does not end in `/`. This holds whether or not the URL ends in `/` or the argument starts with one. |
| Url.JoinAllOneSlash | navis/utils/misc.py:532-538 | For one or more arguments that do not end in `/`, each of one segment or several, the loop gives the base, one `/`, then the stripped arguments joined by single `/`s. |
| Url.SegmentsRecovered | navis/utils/misc.py:532-541 | The text after the base and its `/` splits on `/` back into the stripped segments. Without GET parameters the URL is that path. |
| Url.TrailingSlashIgnored | navis/utils/misc.py:536 | For one or more arguments that do not end in `/`, a base given with a trailing `/` gives the same URL as without. With no arguments the base is returned as given, so the `/` stays. |
| Url.NonAppendingInputsExcluded | navis/utils/misc.py:535-538 | Inputs where `urljoin` does more than append are outside the modelled domain: `a//b`, ` a`, `a<TAB>b`, `http://h/x//` and `http://[h`. |
| Url.OneSegmentWithQuery | navis/utils/misc.py:525-527 | `make_url(base, 'test', **GET)` is the base, `/test`, `?` and the encoded query. |
| Url.TwoSegmentsInOneArgument | navis/utils/misc.py:506-507 | For any two lower-case words `a` and `b`, one argument `a/b` gives the same URL as the two arguments `a` and `b`. Without GET parameters that URL is the base, `/`, `a`, `/` and `b`. |

## Left out

- A `pathlib.Path` is represented by the text `str()` gives for it. The normalisation that produces that text (collapsing `//`, dropping `.` segments and a trailing `/`) is not modelled. A path text starting with `//` is outside `PathText`.
- `CMTKtransform.copy` is modelled as a value copy. The real method relies on `make_iterable(None)`, which is not part of this model.
- The float conversion of output tokens is a parameter. NumPy's array building and `np.nan` are not modelled.
- `bytes.decode()` of stdout and the tuple unpacking of the subprocess result are left out: the parser works on the decoded text.
- Binary discovery (`find_cmtkbin`, `_search_path`, `requires_cmtk`, `check_if_possible`), `cmtk_version`, `from_file`, `__str__`/`__repr__` and the subprocess call in `xform` are left out. They are I/O.
- The affine-only fallback retry in `xform` is left out: it needs the external tool.
- `TransformSequence`, which chains the transforms in `xform_cmtk`, is not part of this model.
- Only `CmtkXform.XformTransforms` models `xform_cmtk`. The point transformation that follows the argument handling is left out.
- `navis/transforms/thinplate.py` and `navis/transforms/moving_least_squares.py` are left out: their work is float linear algebra in external libraries.
- The progress bar and `config` settings in `map_neuronlist` are left out. They only affect display.
- `inspect.signature` becomes the `Signature` datatype.
- NeuronLock.LockedCall: the `AttributeError` raised when the wrapped function deletes `_lock` is left out. The counter is always readable afterwards.
- The body of a function wrapped by `lock_neuron` sees only its first argument; other arguments are left out.
- Url.MakeUrl: `urljoin` is modelled only where its reference resolution (section 5.2 of RFC 3986) is plain appending. The base must be `http://` or `https://` followed by a non-empty host and a path. Each argument is taken after one leading `/` is stripped, and must not then start with `/`. Host, path and arguments may hold only ASCII letters, digits, `/` and the marks `-._~!$&'()*+,=@%`. They may not contain `.`, `..` or empty segments. This leaves out queries, fragments, parameters, schemes, ports, IPv6 hosts, whitespace and control characters. On those inputs `urljoin` collapses, strips, resolves or rejects instead of appending.
- Url.MakeUrl: `str(arg)` is not modelled; arguments are strings.
- Url.MakeUrl: `urlencode` is a parameter. Its output is not checked for `?`, so the query's own text is unconstrained.
- `sizeof_fmt`, `make_volume`, `is_url`, `set_loggers`, `set_pbars`, `is_jupyter`, `_type_of_script` and `set_default_connector_colors` are left out: formatting, environment and global configuration.
- `parse_objects` is modelled only up to its one-level flatten. The sorting into neurons, volumes, points and visuals depends on numpy, pandas, vispy and trimesh types.
- `unpack_neurons`: NumPy arrays and tuples are treated like lists, and neurons are represented by their ids.

## Findings

| source | as written | input that shows it | evidently intended | confidence | as-written member | corrected member |
|---|---|---|---|---|---|---|
| navis/transforms/cmtk.py:287-291 | `append` of a `str` path only checks that `direction` is truthy, so any non-empty string becomes a direction | appending `"reg.list"` with direction `"sideways"` to a valid transform; negating the result then raises `KeyError` | the direction is checked as in the constructor (`"forward"` or `"inverse"`), so every transform stays valid | medium, not executed | CmtkTransforms.AppendAsWritten | CmtkTransforms.Append |
