"""Prints Certificate.dfy: the powers that prove 2**255 - 19 prime.

Every number is found here by plain integer arithmetic; the Dafny file
re-checks each of them, so nothing printed below has to be trusted.
"""

P = 2**255 - 19
Q = (P - 1) // 781764
A = 75445702479781427272750846543864801
B = 1919519569386763
C = 8574133
PER_LEMMA = 16


def hx(v):
    return str(v) if v < 100000 else hex(v)


def windows(a, e, n):
    digits = []
    while e:
        digits.append(e % 4)
        e //= 4
    while len(digits) % 4:
        digits.append(0)
    x = 1
    out = []
    for w in reversed(digits):
        x = pow(x, 4, n) * pow(a, w, n) % n
        out.append((w, a**w, x))
    return out


def chain(name, a, e, n, comment):
    """Lemmas that walk a**e modulo n, two exponent bits at a time."""
    ws = windows(a, e, n)
    parts = [ws[i : i + PER_LEMMA] for i in range(0, len(ws), PER_LEMMA)]
    x = 1
    for j, part in enumerate(parts):
        shift = 0
        for w, _, _ in part:
            shift = 4 * shift + w
        print(f"  lemma {name}{j + 1}(d: nat) returns (e: nat)")
        print(f"    requires Cong(Pow({hx(a)}, d), {hx(x)}, {hx(n)})")
        print(f"    ensures e == {hx(4 ** len(part))} * d + {hx(shift)}")
        print(f"    ensures Cong(Pow({hx(a)}, e), {hx(part[-1][2])}, {hx(n)})")
        print("  {")
        print("    PowersOfTwo();")
        print("    e := d;")
        for i in range(0, len(part), 4):
            print(f"    e := AdvanceByte({hx(n)}, {hx(a)}, e,")
            print(f"      {hx(x)},")
            four = part[i : i + 4]
            for k, (w, t, y) in enumerate(four):
                print(f"      {w}, {hx(t)}, {hx(y)}{');' if k == 3 else ','}")
            x = four[3][2]
        print("  }\n")
    print(f"  // {comment}")
    print(f"  lemma {name}() returns (e: nat)")
    print(f"    ensures e == {hx(e)}")
    print(f"    ensures Cong(Pow({hx(a)}, e), {hx(x)}, {hx(n)})")
    print("  {")
    print("    e := 0;")
    for j in range(len(parts)):
        print(f"    e := {name}{j + 1}(e);")
    print("  }\n")


def step(name, n, q, qlemma, j):
    """One use of Pocklington's criterion."""
    k = (n - 1) // q
    c = pow(2, k, n)
    u = pow(c - 1, -1, n)
    v = (1 - u * (c - 1)) // n
    chain(f"{name}Cofactor", 2, k, n, f"2^k modulo {name}, where k is the cofactor.")
    if name != "P":
        chain(f"{name}Full", 2, n - 1, n, f"2^(n-1) modulo n = {name}.")
    marks = list(range(18, j, 18)) + [j] if j > 5 else []
    for i, m in enumerate(marks):
        print(f"  lemma {name}Trial{'' if m == j else i + 1}()")
        print(f"    ensures NoneDivides({hx(n)}, {hx(q)}, {m})")
        print("  {")
        if i > 0:
            print(f"    {name}Trial{i}();")
        for back in (12, 6):
            print(f"    assert NoneDivides({hx(n)}, {hx(q)}, {m - back});")
        print("  }\n")
    print(f"  lemma {name}IsPrime()")
    print(f"    ensures Prime({hx(n)})")
    print("  {")
    print(f"    {qlemma}();")
    if j > 5:
        print(f"    {name}Trial();")
    print(f"    var k := {name}Cofactor();")
    print(f"    var e := {'RootToOne' if name == 'P' else name + 'Full'}();")
    print(f"    Pocklington({hx(n)}, {hx(q)}, k, 2, e, {hx(c)},")
    print(f"      {hx(u)},")
    print(f"      {'-' + hx(-v) if v < 0 else hx(v)}, {j});")
    print("  }\n")


def square_root(s):
    """A square root modulo P, by the method for primes of the form 8k + 5."""
    x = pow(s, (P + 3) // 8, P)
    if x * x % P != s % P:
        x = x * pow(2, (P - 1) // 4, P) % P
    assert x * x % P == s % P
    return x


def main():
    print("/** Powers that prove 2^255 - 19 prime and give its square root of -1.")
    print("    Printed by tools/certificate.py; every step is checked by the verifier. */")
    print("module Certificate {")
    print("  import opened NumberTheory")
    print("  import opened Primality\n")
    print("  lemma PowersOfTwo()")
    for w in range(4):
        print(f"    ensures Pow(2, {w}) == {2**w}")
    print("  {")
    for w in range(1, 4):
        print(f"    assert Pow(2, {w}) == 2 * Pow(2, {w - 1});")
    print("  }\n")
    print("  lemma StartIsPrime()")
    print("    ensures Prime(991)")
    print("  {")
    print("    assert NoneDivides(991, 1, 10);")
    print("    assert NoneDivides(991, 1, 20);")
    print("    PrimeByTrial(991, 30);")
    print("  }\n")
    step("C", C, 991, "StartIsPrime", 2)
    step("B", B, C, "CIsPrime", 5)
    step("A", A, B, "BIsPrime", 143)
    step("Q", Q, A, "AIsPrime", 3)
    i = pow(2, (P - 1) // 4, P)
    chain("Root", 2, (P - 1) // 4, P, "2^((p-1)/4): the square root of -1 modulo p.")
    print("  lemma RootSquared()")
    print(f"    ensures Cong({hx(i)} * {hx(i)}, -1, {hx(P)})")
    print("  {")
    print("  }\n")
    print("  lemma RootToOne() returns (e: nat)")
    print(f"    ensures e == {hx(P - 1)}")
    print(f"    ensures Cong(Pow(2, e), 1, {hx(P)})")
    print("  {")
    print("    var f := Root();")
    print("    RootSquared();")
    print(f"    e := FourthPower({hx(P)}, 2, f, {hx(i)});")
    print("  }\n")
    step("P", P, Q, "QIsPrime", 0)
    s = 121665 * 60833
    r = square_root(s)
    print("  // 121665 * 121666 is twice this square.")
    print("  lemma HalfProductIsSquare()")
    print(f"    ensures Cong({hx(r)} * {hx(r)}, 121665 * 60833, {hx(P)})")
    print("  {")
    print("  }")
    print("}")


main()
