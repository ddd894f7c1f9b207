"""Counts the rows of FILTERS_MANDATORY_PREFIX that have another mandatory-prefix node below one of their children.

Usage: mandatory_rows.py <path to Share/Hook/Zydis/Generated/DecoderTables.inc>
"""
import re
import sys
from functools import lru_cache

KIND = "MANDATORY_PREFIX"


def read_tables(text):
    tables = {}
    for name, body in re.findall(r"FILTERS_(\w+)\[\]\[\d+\] =\s*\{(.*?)\n\};", text, re.S):
        tables[name] = [
            [(kind, int(index, 16)) for kind, index in re.findall(r"NODETYPE_FILTER_(\w+), (0x[0-9A-F]+)\)", row)]
            for row in re.findall(r"\{([^{}]*)\}", body)
        ]
    return tables


def main(path):
    with open(path) as source:
        tables = read_tables(source.read())

    @lru_cache(maxsize=None)
    def reaches(node):
        kind, index = node
        return kind == KIND or any(reaches(child) for child in tables[kind][index])

    nested = [row for row in tables[KIND] if any(reaches(child) for child in row)]
    print(f"{len(tables[KIND])} rows, {len(nested)} with a nested mandatory-prefix node")


if __name__ == "__main__":
    main(sys.argv[1])
